/** Grouping results that agree, and the largest group: greedy, in order of first appearance. */
module ResultClusters {

  type Groups = seq<seq<nat>>

  /** Groups hold the numbers of results below `n`, and none is empty. */
  ghost predicate Indices(groups: Groups, n: nat) {
    forall k :: 0 <= k < |groups| ==> groups[k] != [] && groups[k][0] < n && forall i :: i in groups[k] ==> i < n
  }

  ghost predicate InGroup(groups: Groups, k: nat, i: nat) { k < |groups| && i in groups[k] }

  ghost predicate Placed(groups: Groups, i: nat) { exists k: nat :: InGroup(groups, k, i) }

  /** Every number below `n` is in exactly one group, once, and groups list theirs in order. */
  ghost predicate Partition(groups: Groups, n: nat) {
    Indices(groups, n) && (forall i: nat :: i < n ==> Placed(groups, i)) &&
    (forall j: nat, k: nat, i: nat :: InGroup(groups, j, i) && InGroup(groups, k, i) ==> j == k) &&
    (forall k, x, y :: 0 <= k < |groups| && 0 <= x < y < |groups[k]| ==> groups[k][x] < groups[k][y])
  }

  /** A result is in the first group whose first member it agrees with: none before it would have had it. */
  ghost predicate Agreeing<T>(groups: Groups, results: seq<T>, same: (T, T) -> bool)
    requires Indices(groups, |results|)
  {
    (forall k: nat, i: nat :: InGroup(groups, k, i) ==> i == groups[k][0] || same(results[groups[k][0]], results[i])) &&
    (forall j: nat, k: nat, i: nat :: j < k && InGroup(groups, k, i) ==> !same(results[groups[j][0]], results[i]))
  }

  /** What clustering gives: a partition into groups that agree, no two of which would have been one. */
  ghost predicate Clustered<T>(groups: Groups, results: seq<T>, same: (T, T) -> bool) {
    Partition(groups, |results|) && Agreeing(groups, results, same)
  }

  function Sizes(groups: Groups): nat {
    if groups == [] then 0 else Sizes(groups[..|groups| - 1]) + |groups[|groups| - 1]|
  }

  lemma {:induction false} SizesAfter(groups: Groups, k: nat, i: nat)
    requires k < |groups|
    ensures Sizes(groups[k := groups[k] + [i]]) == Sizes(groups) + 1
  {
    var n := |groups| - 1;
    var after := groups[k := groups[k] + [i]];
    if k == n {
      assert after[..n] == groups[..n];
    } else {
      assert after[..n] == groups[..n][k := groups[k] + [i]];
      SizesAfter(groups[..n], k, i);
    }
  }

  lemma SizesMore(groups: Groups, g: seq<nat>)
    ensures Sizes(groups + [g]) == Sizes(groups) + |g|
  {
    assert (groups + [g])[..|groups|] == groups;
  }

  /** The results before `i` are clustered. */
  ghost predicate SoFar<T>(groups: Groups, results: seq<T>, i: nat, same: (T, T) -> bool) {
    i <= |results| && Clustered(groups, results[..i], same) && Sizes(groups) == i && (i > 0 ==> groups != [])
  }

  lemma JoinPartition(groups: Groups, i: nat, k: nat)
    requires Partition(groups, i) && k < |groups|
    ensures var after := groups[k := groups[k] + [i]];
            Partition(after, i + 1) &&
            forall j: nat, x: nat :: InGroup(after, j, x) <==> InGroup(groups, j, x) || (j == k && x == i)
    ensures forall j :: 0 <= j < |groups| ==> groups[k := groups[k] + [i]][j][0] == groups[j][0]
  {
    var after := groups[k := groups[k] + [i]];
    forall j: nat, x: nat ensures InGroup(after, j, x) <==> InGroup(groups, j, x) || (j == k && x == i) {}
    forall x: nat | x < i + 1 ensures Placed(after, x) {
      if x == i {
        assert InGroup(after, k, x);
      } else {
        assert Placed(groups, x);
        var j: nat :| InGroup(groups, j, x);
        assert InGroup(after, j, x);
      }
    }
    forall j, x, y | 0 <= j < |after| && 0 <= x < y < |after[j]| ensures after[j][x] < after[j][y] {
      if j == k && y == |groups[k]| { assert groups[k][x] in groups[k]; }
    }
  }

  lemma OpenPartition(groups: Groups, i: nat)
    requires Partition(groups, i)
    ensures var after := groups + [[i]];
            Partition(after, i + 1) &&
            forall j: nat, x: nat :: InGroup(after, j, x) <==> InGroup(groups, j, x) || (j == |groups| && x == i)
    ensures forall j :: 0 <= j < |groups| ==> (groups + [[i]])[j][0] == groups[j][0]
  {
    var after := groups + [[i]];
    forall j: nat, x: nat ensures InGroup(after, j, x) <==> InGroup(groups, j, x) || (j == |groups| && x == i) {}
    forall x: nat | x < i + 1 ensures Placed(after, x) {
      if x == i {
        assert InGroup(after, |groups|, x);
      } else {
        assert Placed(groups, x);
        var j: nat :| InGroup(groups, j, x);
        assert InGroup(after, j, x);
      }
    }
  }

  /** A result that agrees with the first member of a group, and of none before it, joins that group. */
  lemma Joins<T>(groups: Groups, results: seq<T>, i: nat, k: nat, same: (T, T) -> bool)
    requires i < |results| && SoFar(groups, results, i, same) && k < |groups|
    requires groups[k][0] < i && same(results[groups[k][0]], results[i])
    requires forall j :: 0 <= j < k ==> groups[j][0] < i && !same(results[groups[j][0]], results[i])
    ensures SoFar(groups[k := groups[k] + [i]], results, i + 1, same)
  {
    JoinPartition(groups, i, k);
    SizesAfter(groups, k, i);
    StillAgree(groups, groups[k := groups[k] + [i]], results, i, k, same);
  }

  /** One that agrees with none opens its own. */
  lemma Opens<T>(groups: Groups, results: seq<T>, i: nat, same: (T, T) -> bool)
    requires i < |results| && SoFar(groups, results, i, same)
    requires forall j :: 0 <= j < |groups| ==> groups[j][0] < i && !same(results[groups[j][0]], results[i])
    ensures SoFar(groups + [[i]], results, i + 1, same)
  {
    OpenPartition(groups, i);
    SizesMore(groups, [i]);
    StillAgree(groups, groups + [[i]], results, i, |groups|, same);
  }

  lemma StillAgree<T>(groups: Groups, after: Groups, results: seq<T>, i: nat, k: nat, same: (T, T) -> bool)
    requires i < |results| && Indices(groups, i) && Indices(after, i + 1) && Agreeing(groups, results[..i], same)
    requires forall j: nat, x: nat :: InGroup(after, j, x) <==> InGroup(groups, j, x) || (j == k && x == i)
    requires |groups| <= |after| && k < |after| && forall j :: 0 <= j < |groups| ==> after[j][0] == groups[j][0]
    requires |after| <= |groups| + 1 && (|after| > |groups| ==> k == |groups| && after[k][0] == i)
    requires k < |groups| ==> groups[k][0] < i && same(results[groups[k][0]], results[i])
    requires forall j :: 0 <= j < k ==> groups[j][0] < i && !same(results[groups[j][0]], results[i])
    ensures Agreeing(after, results[..i + 1], same)
  {
    var now, before := results[..i + 1], results[..i];
    forall j | 0 <= j < |groups| ensures groups[j][0] < i && now[groups[j][0]] == before[groups[j][0]] {
      assert groups[j][0] in groups[j];
    }
    forall j: nat, x: nat | InGroup(after, j, x) ensures x == after[j][0] || same(now[after[j][0]], now[x]) {
      if InGroup(groups, j, x) { assert now[x] == before[x]; }
    }
    forall h: nat, j: nat, x: nat | h < j && InGroup(after, j, x) ensures !same(now[after[h][0]], now[x]) {
      if InGroup(groups, j, x) { assert now[x] == before[x]; }
    }
  }

  /** Where a result belongs: the first group whose first member it agrees with, or past them all. */
  method FirstAgreeing<T>(groups: Groups, results: seq<T>, i: nat, same: (T, T) -> bool) returns (k: nat)
    requires i < |results| && Indices(groups, i)
    ensures k <= |groups| && forall j :: 0 <= j < k ==> groups[j][0] < i && !same(results[groups[j][0]], results[i])
    ensures k < |groups| ==> groups[k][0] < i && same(results[groups[k][0]], results[i])
  {
    k := 0;
    while k < |groups|
      invariant k <= |groups| && forall j :: 0 <= j < k ==> groups[j][0] < i && !same(results[groups[j][0]], results[i])
    {
      assert groups[k][0] in groups[k];
      if same(results[groups[k][0]], results[i]) { return; }
      k := k + 1;
    }
  }

  /** Group results that agree: greedy, in order of first appearance. */
  method Cluster<T>(results: seq<T>, same: (T, T) -> bool) returns (groups: Groups)
    ensures Clustered(groups, results, same) && Sizes(groups) == |results| && (results != [] ==> groups != [])
  {
    groups := [];
    var i := 0;
    NoneYet(results, same);
    hide SoFar, Clustered, Sizes, Indices;
    while i < |results|
      invariant SoFar(groups, results, i, same) && i <= |results|
    {
      InRange(groups, results, i, same);
      var k := FirstAgreeing(groups, results, i, same);
      if k < |groups| {
        Joins(groups, results, i, k, same);
        groups := groups[k := groups[k] + [i]];
      } else {
        Opens(groups, results, i, same);
        groups := groups + [[i]];
      }
      i := i + 1;
    }
    AllClustered(groups, results, same);
  }

  lemma NoneYet<T>(results: seq<T>, same: (T, T) -> bool)
    ensures SoFar([], results, 0, same)
  {}

  lemma InRange<T>(groups: Groups, results: seq<T>, i: nat, same: (T, T) -> bool)
    requires SoFar(groups, results, i, same)
    ensures Indices(groups, i)
  {}

  lemma AllClustered<T>(groups: Groups, results: seq<T>, same: (T, T) -> bool)
    requires SoFar(groups, results, |results|, same)
    ensures Clustered(groups, results, same) && Sizes(groups) == |results| && (results != [] ==> groups != [])
  {
    assert results[..|results|] == results;
  }

  ghost predicate Largest(groups: Groups, k: nat) {
    k < |groups| && (forall j :: 0 <= j < |groups| ==> |groups[j]| <= |groups[k]|) &&
    (forall j :: 0 <= j < k ==> |groups[j]| < |groups[k]|)
  }

  lemma OneLargest(groups: Groups, m: nat, k: nat)
    requires Largest(groups, m) && Largest(groups, k)
    ensures m == k
  {
    assert |groups[m]| == |groups[k]|;
  }

  /** The largest group, the first of them on a tie. */
  method Majority(groups: Groups) returns (best: nat)
    requires groups != []
    ensures Largest(groups, best)
  {
    best := 0;
    var i := 0;
    while i < |groups|
      invariant i <= |groups| && best < |groups|
      invariant forall j :: 0 <= j < i ==> |groups[j]| <= |groups[best]|
      invariant forall j :: 0 <= j < best ==> |groups[j]| < |groups[best]|
    {
      if |groups[i]| > |groups[best]| { best := i; }
      i := i + 1;
    }
  }

  function Share(n: nat, of: nat): (share: real)
    requires of > 0
    ensures share * of as real == n as real
  {
    n as real / of as real
  }
}
