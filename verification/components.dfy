/** The union-find of `plan_recasts`: a dictionary of parent links, halved on every search. */
module Components {
  import opened Ordering

  /** What `setdefault`, the halving step and `root[max] = min` all keep: a link never climbs. */
  ghost predicate Forest<T(!new)>(le: (T, T) -> bool, root: map<T, T>) {
    Order(le) && forall x {:trigger le(root[x], x)} :: x in root ==> root[x] in root && le(root[x], x)
  }

  lemma Link<T(!new)>(le: (T, T) -> bool, root: map<T, T>, x: T)
    requires Forest(le, root) && x in root
    ensures root[x] in root && le(root[x], x)
  {
    assert le(root[x], x);
  }

  /** The keys at or below `x`; following a link leaves at least `x` itself behind. */
  ghost function Below<T(!new)>(le: (T, T) -> bool, root: map<T, T>, x: T): set<T> {
    set k | k in root && le(k, x)
  }

  lemma BelowShrinks<T(!new)>(le: (T, T) -> bool, root: map<T, T>, x: T, y: T)
    requires Order(le) && x in root && le(y, x) && y != x
    ensures Below(le, root, y) < Below(le, root, x)
  {
    forall k | k in Below(le, root, y) ensures k in Below(le, root, x) { Trans(le, k, y, x); }
    Total(le, x, x);
    assert x in Below(le, root, x);
    if x in Below(le, root, y) { Antisym(le, x, y); }
  }

  /** Where the links from `x` end. */
  ghost function Rep<T(!new)>(le: (T, T) -> bool, root: map<T, T>, x: T): (r: T)
    requires Forest(le, root) && x in root
    ensures r in root && root[r] == r && le(r, x)
    decreases Below(le, root, x)
  {
    Link(le, root, x);
    if root[x] == x then x else
      BelowShrinks(le, root, x, root[x]);
      Trans(le, Rep(le, root, root[x]), root[x], x);
      Rep(le, root, root[x])
  }

  /** Two dictionaries agree on where the links of `root`'s keys end. */
  ghost predicate SameEnds<T(!new)>(le: (T, T) -> bool, root: map<T, T>, next: map<T, T>)
    requires Forest(le, root) && Forest(le, next)
  {
    root.Keys <= next.Keys && forall y {:trigger Rep(le, next, y)} :: y in root ==> Rep(le, next, y) == Rep(le, root, y)
  }

  // ----- the three ways the dictionary is written -----

  lemma HalvingKeepsForest<T(!new)>(le: (T, T) -> bool, root: map<T, T>, x: T, next: map<T, T>)
    requires Forest(le, root) && x in root && root[x] in root && root[x] != x && next == root[x := root[root[x]]]
    ensures Forest(le, next) && next.Keys == root.Keys && next[x] != x && le(next[x], x)
  {
    var z := root[x];
    Link(le, root, x);
    Link(le, root, z);
    Trans(le, root[z], z, x);
    if root[z] == x { Antisym(le, x, z); }
    forall y | y in next ensures next[y] in next && le(next[y], y) { Link(le, root, y); }
  }

  lemma {:induction false} HalvingKeepsRep<T(!new)>(le: (T, T) -> bool, root: map<T, T>, x: T, next: map<T, T>, y: T)
    requires Forest(le, root) && x in root && y in root && root[x] in root && root[x] != x &&
             next == root[x := root[root[x]]]
    requires Forest(le, next)
    ensures Rep(le, next, y) == Rep(le, root, y)
    decreases Below(le, root, y)
  {
    Link(le, root, y);
    if root[y] != y {
      var z := root[y];
      Link(le, root, z);
      BelowShrinks(le, root, y, z);
      HalvingKeepsRep(le, root, x, next, z);
      if x == y && root[z] != z {
        BelowShrinks(le, root, z, root[z]);
        HalvingKeepsRep(le, root, x, next, root[z]);
      }
    }
  }

  lemma Halving<T(!new)>(le: (T, T) -> bool, root: map<T, T>, x: T, next: map<T, T>)
    requires Forest(le, root) && x in root && root[x] in root && root[x] != x && next == root[x := root[root[x]]]
    ensures Forest(le, next) && next.Keys == root.Keys && next[x] != x && le(next[x], x)
    ensures SameEnds(le, root, next)
  {
    HalvingKeepsForest(le, root, x, next);
    forall y {:trigger Rep(le, next, y)} | y in root ensures Rep(le, next, y) == Rep(le, root, y) {
      HalvingKeepsRep(le, root, x, next, y);
    }
  }

  /** Pointing one end at another joins their classes and moves nothing else. */
  lemma {:induction false} LinkingRep<T(!new)>(le: (T, T) -> bool, root: map<T, T>, top: T, low: T, next: map<T, T>,
                                               y: T)
    requires Forest(le, root) && top in root && low in root && y in root && next == root[top := low]
    requires root[top] == top && root[low] == low && top != low && Forest(le, next)
    ensures Rep(le, next, y) == if Rep(le, root, y) == top then low else Rep(le, root, y)
    decreases Below(le, root, y)
  {
    Link(le, root, y);
    if root[y] != y {
      BelowShrinks(le, root, y, root[y]);
      LinkingRep(le, root, top, low, next, root[y]);
    }
  }

  lemma {:induction false} AddingRep<T(!new)>(le: (T, T) -> bool, root: map<T, T>, x: T, next: map<T, T>, y: T)
    requires Forest(le, root) && x !in root && y in root && next == root[x := x] && Forest(le, next)
    ensures Rep(le, next, y) == Rep(le, root, y)
    decreases Below(le, root, y)
  {
    Link(le, root, y);
    if root[y] != y {
      BelowShrinks(le, root, y, root[y]);
      AddingRep(le, root, x, next, root[y]);
    }
  }

  lemma Adding<T(!new)>(le: (T, T) -> bool, root: map<T, T>, x: T, next: map<T, T>)
    requires Forest(le, root) && x !in root && next == root[x := x]
    ensures Forest(le, next) && Rep(le, next, x) == x && SameEnds(le, root, next)
  {
    Total(le, x, x);
    forall y | y in next ensures next[y] in next && le(next[y], y) { if y != x { Link(le, root, y); } }
    forall y {:trigger Rep(le, next, y)} | y in root ensures Rep(le, next, y) == Rep(le, root, y) {
      AddingRep(le, root, x, next, y);
    }
  }

  // ----- the algorithm -----

  /** The end of `x`'s links, where a key not yet seen is its own. */
  ghost function End<T(!new)>(le: (T, T) -> bool, root: map<T, T>, x: T): T
    requires Forest(le, root)
  {
    if x in root then Rep(le, root, x) else x
  }

  /** `next` is `root` with the classes ending at `ra` and `rb` made one, ending at the lesser. */
  ghost predicate Joined<T(!new)>(le: (T, T) -> bool, root: map<T, T>, ra: T, rb: T, next: map<T, T>)
    requires Forest(le, root) && Forest(le, next)
  {
    forall y {:trigger Rep(le, next, y)} :: y in next ==>
      Rep(le, next, y) == (if End(le, root, y) == ra || End(le, root, y) == rb
                           then (if le(ra, rb) then ra else rb) else End(le, root, y))
  }

  lemma Linking<T(!new)>(le: (T, T) -> bool, root: map<T, T>, ra: T, rb: T, next: map<T, T>)
    requires Forest(le, root) && ra in root && rb in root && root[ra] == ra && root[rb] == rb && ra != rb
    requires next == if le(ra, rb) then root[rb := ra] else root[ra := rb]
    ensures Forest(le, next) && next.Keys == root.Keys && Joined(le, root, ra, rb, next)
  {
    Total(le, ra, rb);
    var top := if le(ra, rb) then rb else ra;
    var low := if le(ra, rb) then ra else rb;
    forall y | y in next ensures next[y] in next && le(next[y], y) { Link(le, root, y); }
    forall y {:trigger Rep(le, next, y)} | y in root
      ensures Rep(le, next, y) == if Rep(le, root, y) == top then low else Rep(le, root, y)
    {
      LinkingRep(le, root, top, low, next, y);
    }
  }

  class UnionFind<T(!new, ==)> {
    const le: (T, T) -> bool
    var root: map<T, T>

    ghost predicate Valid() reads this { Forest(le, root) }

    constructor (le: (T, T) -> bool)
      requires Order(le)
      ensures Valid() && root == map[] && this.le == le
    {
      this.le := le;
      root := map[];
    }

    /** `find`: `setdefault`, then climb, halving the path on the way. No class moves. */
    method Find(x: T) returns (r: T)
      requires Valid()
      modifies this
      ensures Valid() && root.Keys == old(root.Keys) + {x}
      ensures r == Rep(le, root, x)
      ensures SameEnds(le, old(root), root)
      ensures x !in old(root) ==> r == x
    {
      if x !in root {
        Adding(le, root, x, root[x := x]);
        root := root[x := x];
      }
      ghost var start := root;
      assert SameEnds(le, old(root), start);
      r := x;
      while root[r] != r
        invariant Valid() && root.Keys == start.Keys && SameEnds(le, start, root)
        invariant r in root && Rep(le, root, r) == Rep(le, start, x)
        decreases Below(le, root, r)
      {
        Link(le, root, r);
        var next := root[r := root[root[r]]];
        Halving(le, root, r, next);
        assert Below(le, next, r) == Below(le, root, r);
        BelowShrinks(le, next, r, next[r]);
        root := next;
        r := root[r];
      }
    }

    /** `union`: the smaller end becomes the root, and exactly the two classes are joined. */
    method Union(a: T, b: T)
      requires Valid()
      modifies this
      ensures Valid() && root.Keys == old(root.Keys) + {a, b}
      ensures Joined(le, old(root), End(le, old(root), a), End(le, old(root), b), root)
    {
      var ra := Find(a);
      ghost var mid := root;
      var rb := Find(b);
      Total(le, ra, ra);
      assert Rep(le, root, ra) == Rep(le, mid, ra) == ra;
      assert Rep(le, root, a) == Rep(le, mid, a) == ra;
      if ra != rb {
        var next := if le(ra, rb) then root[rb := ra] else root[ra := rb];
        Linking(le, root, ra, rb, next);
        root := next;
      }
    }
  }
}
