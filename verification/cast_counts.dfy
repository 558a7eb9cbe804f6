/** What three counts over a column say of a cast: whether every value in it survives. */
module CastCounts {
  import opened Options

  type Value = string

  /** A column's values; a NULL is no value. */
  type Values = seq<Option<Value>>

  /** What a database's casts do: a value's cast, if it has one, and whether the value has a fractional part. */
  datatype Casts<!T> = Casts(cast: (T, Value) -> Option<Value>, fractional: Value -> bool)

  function CountNonNull(vs: Values): nat {
    if vs == [] then 0 else (if vs[0].Some? then 1 else 0) + CountNonNull(vs[1..])
  }

  function CountConverted<T>(k: Casts<T>, t: T, vs: Values): nat {
    if vs == [] then 0
    else (if vs[0].Some? && k.cast(t, vs[0].value).Some? then 1 else 0) + CountConverted(k, t, vs[1..])
  }

  function CountFractional<T>(k: Casts<T>, vs: Values): nat {
    if vs == [] then 0 else (if vs[0].Some? && k.fractional(vs[0].value) then 1 else 0) + CountFractional(k, vs[1..])
  }

  /** The three counts, compared; `whole` says the cast is to a number. */
  predicate CountsAgree<T>(k: Casts<T>, t: T, whole: bool, vs: Values) {
    CountNonNull(vs) == CountConverted(k, t, vs) && !(whole && CountFractional(k, vs) > 0)
  }

  /** No value that is there is lost by the cast, and none is rounded by a cast to a number. */
  ghost predicate Survives<T>(k: Casts<T>, t: T, whole: bool, vs: Values) {
    forall i :: 0 <= i < |vs| && vs[i].Some? ==>
                  k.cast(t, vs[i].value).Some? && (whole ==> !k.fractional(vs[i].value))
  }

  lemma {:induction false} FewerConvert<T>(k: Casts<T>, t: T, vs: Values)
    ensures CountConverted(k, t, vs) <= CountNonNull(vs)
  {
    if vs != [] { FewerConvert(k, t, vs[1..]); }
  }

  /** The counts agree exactly when the cast loses nothing. */
  lemma {:induction false} CountsTell<T>(k: Casts<T>, t: T, whole: bool, vs: Values)
    ensures CountsAgree(k, t, whole, vs) <==> Survives(k, t, whole, vs)
  {
    if vs != [] {
      FewerConvert(k, t, vs[1..]);
      CountsTell(k, t, whole, vs[1..]);
      assert vs == [vs[0]] + vs[1..];
      if Survives(k, t, whole, vs[1..]) {
        forall i | 0 < i < |vs| && vs[i].Some?
          ensures k.cast(t, vs[i].value).Some? && (whole ==> !k.fractional(vs[i].value))
        {
          assert vs[1..][i - 1] == vs[i];
        }
      }
    }
  }

  function CastAll<T>(k: Casts<T>, t: T, vs: Values): (r: Values)
    ensures |r| == |vs| && forall i :: 0 <= i < |r| ==> r[i] == if vs[i].Some? then k.cast(t, vs[i].value) else None
  {
    if vs == [] then []
    else [if vs[0].Some? then k.cast(t, vs[0].value) else None] + CastAll(k, t, vs[1..])
  }

  // ----- one cast after another -----

  /** `after` is `before` cast to each of these targets in turn, and no cast lost or rounded a value. */
  ghost predicate Carries<T>(k: Casts<T>, whole: T -> bool, chain: seq<T>, before: Values, after: Values)
    decreases |chain|
  {
    if chain == [] then after == before
    else
      Survives(k, chain[0], whole(chain[0]), before) &&
      Carries(k, whole, chain[1..], CastAll(k, chain[0], before), after)
  }

  /** Whatever is carried, every value that was there is there still. */
  lemma {:induction false} CarriedIsThere<T>(k: Casts<T>, whole: T -> bool, chain: seq<T>, before: Values,
                                             after: Values)
    requires Carries(k, whole, chain, before, after)
    ensures |after| == |before| && forall i :: 0 <= i < |before| ==> (before[i].Some? <==> after[i].Some?)
    decreases |chain|
  {
    if chain != [] { CarriedIsThere(k, whole, chain[1..], CastAll(k, chain[0], before), after); }
  }

  lemma {:induction false} CarriesOn<T>(k: Casts<T>, whole: T -> bool, a: seq<T>, b: seq<T>, x: Values, y: Values,
                                        z: Values)
    requires Carries(k, whole, a, x, y) && Carries(k, whole, b, y, z)
    ensures Carries(k, whole, a + b, x, z)
    decreases |a|
  {
    if a == [] {
      assert a + b == b;
    } else {
      CarriesOn(k, whole, a[1..], b, CastAll(k, a[0], x), y, z);
      assert (a + b)[1..] == a[1..] + b;
    }
  }
}
