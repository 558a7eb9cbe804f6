/** Stored names in Oracle's dictionary, and the batches its IN lists are cut into. */
module OracleNames {
  import opened Ordering

  datatype Name = Name(owner: string, name: string)

  function NameKey(n: Name): seq<string> { [n.owner, n.name] }

  predicate NameLe(a: Name, b: Name) { LexLe(NameKey(a), NameKey(b)) }

  lemma NameOrder()
    ensures Order(NameLe)
  {
    forall a, b | NameKey(a) == NameKey(b) ensures a == b {
      assert NameKey(a)[0] == NameKey(b)[0] && NameKey(a)[1] == NameKey(b)[1];
    }
    OrderByKey(NameLe, NameKey);
  }

  function Concat<T>(cs: seq<seq<T>>): seq<T> {
    if cs == [] then [] else cs[0] + Concat(cs[1..])
  }

  /** `_chunks`: the items in order, `size` at a time, the last batch whatever is left. */
  function Chunks<T(!new)>(items: seq<T>, size: nat): (cs: seq<seq<T>>)
    requires size > 0
    ensures Concat(cs) == items && forall i :: 0 <= i < |cs| - 1 ==> |cs[i]| == size
    ensures forall x :: x in items <==> exists c :: c in cs && x in c
    ensures forall c :: c in cs ==> 0 < |c| <= size
    decreases |items|
  {
    if items == [] then [] else
      var n := if |items| < size then |items| else size;
      var rest := Chunks(items[n..], size);
      assert items == items[..n] + items[n..];
      assert forall c :: c in [items[..n]] + rest <==> c == items[..n] || c in rest;
      assert ([items[..n]] + rest)[1..] == rest;
      [items[..n]] + rest
  }
}
