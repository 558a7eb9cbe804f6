/** `_synonyms_reaching_a_link`: backwards, by target, from the synonyms over a DB link. */
module LinkClosure {
  import opened Options
  import opened Ordering
  import opened OracleNames

  /** A row of ALL_SYNONYMS. A target of a link synonym may have no owner. */
  datatype Synonym = Synonym(alias: Name, owner: Option<string>, target: string, overLink: bool)

  const LINK_BATCH: nat := 400
  const NAME_BATCH: nat := 900

  /** `r` names `m` as its target, or names `m`'s bare name where `m` is PUBLIC's. */
  predicate Claims(m: Name, r: Synonym) {
    r.target == m.name && (r.owner == Some(m.owner) || m.owner == "PUBLIC")
  }

  /** The rows' aliases that the members claim. */
  function ClaimedBy(rows: set<Synonym>, members: set<Name>): set<Name> {
    set r, m | r in rows && m in members && Claims(m, r) :: r.alias
  }

  function OverLink(rows: set<Synonym>): set<Name> {
    set r | r in rows && r.overLink :: r.alias
  }

  /** Holds every link synonym, and whatever it claims. */
  ghost predicate Closed(rows: set<Synonym>, S: set<Name>) {
    OverLink(rows) <= S && ClaimedBy(rows, S) <= S
  }

  // ----- the two dictionary reads of a round -----

  /** The synonyms whose target, owner and name, is in the batch. A row with no owner matches none. */
  function ByTarget(rows: set<Synonym>, batch: seq<Name>): set<Name> {
    set r | r in rows && r.owner.Some? && Name(r.owner.value, r.target) in batch :: r.alias
  }

  function ByName(rows: set<Synonym>, batch: seq<string>): set<Name> {
    set r | r in rows && r.target in batch :: r.alias
  }

  function PublicNames(S: set<Name>): set<string> {
    set m | m in S && m.owner == "PUBLIC" :: m.name
  }

  method ReadTargets(rows: set<Synonym>, members: seq<Name>) returns (reached: set<Name>)
    ensures reached == ByTarget(rows, members)
  {
    hide ByTarget;
    reached := {};
    var batches := Chunks(members, LINK_BATCH);
    for i := 0 to |batches|
      invariant forall a :: a in reached <==> exists k :: 0 <= k < i && a in ByTarget(rows, batches[k])
    {
      reached := reached + ByTarget(rows, batches[i]);
    }
    TargetBatches(rows, members, batches, reached);
  }

  lemma TargetBatches(rows: set<Synonym>, members: seq<Name>, batches: seq<seq<Name>>, reached: set<Name>)
    requires forall m :: m in members <==> exists c :: c in batches && m in c
    requires forall a :: a in reached <==> exists k :: 0 <= k < |batches| && a in ByTarget(rows, batches[k])
    ensures reached == ByTarget(rows, members)
  {
    forall a | a in ByTarget(rows, members) ensures a in reached {
      var r :| r in rows && r.owner.Some? && Name(r.owner.value, r.target) in members && a == r.alias;
      var c :| c in batches && Name(r.owner.value, r.target) in c;
      var k :| 0 <= k < |batches| && batches[k] == c;
      assert a in ByTarget(rows, batches[k]);
    }
    forall a | a in reached ensures a in ByTarget(rows, members) {
      var k :| 0 <= k < |batches| && a in ByTarget(rows, batches[k]);
      assert batches[k] in batches;
    }
  }

  method ReadNames(rows: set<Synonym>, names: seq<string>) returns (reached: set<Name>)
    ensures reached == ByName(rows, names)
  {
    hide ByName;
    reached := {};
    var batches := Chunks(names, NAME_BATCH);
    for i := 0 to |batches|
      invariant forall a :: a in reached <==> exists k :: 0 <= k < i && a in ByName(rows, batches[k])
    {
      reached := reached + ByName(rows, batches[i]);
    }
    NameBatches(rows, names, batches, reached);
  }

  lemma NameBatches(rows: set<Synonym>, names: seq<string>, batches: seq<seq<string>>, reached: set<Name>)
    requires forall m :: m in names <==> exists c :: c in batches && m in c
    requires forall a :: a in reached <==> exists k :: 0 <= k < |batches| && a in ByName(rows, batches[k])
    ensures reached == ByName(rows, names)
  {
    forall a | a in ByName(rows, names) ensures a in reached {
      var r :| r in rows && r.target in names && a == r.alias;
      var c :| c in batches && r.target in c;
      var k :| 0 <= k < |batches| && batches[k] == c;
      assert a in ByName(rows, batches[k]);
    }
    forall a | a in reached ensures a in ByName(rows, names) {
      var k :| 0 <= k < |batches| && a in ByName(rows, batches[k]);
      assert batches[k] in batches;
    }
  }

  /** A round's reads find exactly what the frontier claims. */
  method Round(rows: set<Synonym>, frontier: set<Name>) returns (reached: set<Name>)
    ensures reached == ClaimedBy(rows, frontier)
  {
    hide ByTarget, ByName, ClaimedBy, NameLe, StrLe;
    NameOrder();
    StringOrder();
    var members, names := SortSet(NameLe, frontier), SortSet(StrLe, PublicNames(frontier));
    var byTarget := ReadTargets(rows, members);
    var byName := ReadNames(rows, names);
    reached := byTarget + byName;
    ReadsCover(rows, frontier, members, names);
  }

  lemma ReadsCover(rows: set<Synonym>, frontier: set<Name>, members: seq<Name>, names: seq<string>)
    requires forall m :: m in members <==> m in frontier
    requires forall n :: n in names <==> n in PublicNames(frontier)
    ensures ByTarget(rows, members) + ByName(rows, names) == ClaimedBy(rows, frontier)
  {
    forall a | a in ByTarget(rows, members) ensures a in ClaimedBy(rows, frontier) {
      var r :| r in rows && r.owner.Some? && Name(r.owner.value, r.target) in members && a == r.alias;
      assert Claims(Name(r.owner.value, r.target), r);
    }
    forall a | a in ByName(rows, names) ensures a in ClaimedBy(rows, frontier) {
      var r :| r in rows && r.target in names && a == r.alias;
      var m :| m in frontier && m.owner == "PUBLIC" && m.name == r.target;
      assert Claims(m, r);
    }
    forall a | a in ClaimedBy(rows, frontier) ensures a in ByTarget(rows, members) + ByName(rows, names) {
      var r, m :| r in rows && m in frontier && Claims(m, r) && a == r.alias;
      if r.owner == Some(m.owner) {
        assert Name(r.owner.value, r.target) == m;
      } else {
        assert r.target in PublicNames(frontier);
      }
    }
  }

  // ----- the frontier loop -----

  lemma ClaimsOfUnion(rows: set<Synonym>, S: set<Name>, T: set<Name>)
    ensures ClaimedBy(rows, S + T) == ClaimedBy(rows, S) + ClaimedBy(rows, T)
  {
    forall a | a in ClaimedBy(rows, S + T) ensures a in ClaimedBy(rows, S) + ClaimedBy(rows, T) {
      var r, m :| r in rows && m in S + T && Claims(m, r) && a == r.alias;
    }
  }

  lemma ClaimsGrow(rows: set<Synonym>, S: set<Name>, T: set<Name>)
    requires S <= T
    ensures ClaimedBy(rows, S) <= ClaimedBy(rows, T)
  {}

  /** The least closed set, from frontiers that ask only about what the last round added. */
  method SynonymsReachingALink(rows: set<Synonym>) returns (found: set<Name>)
    ensures Closed(rows, found)
    ensures forall S :: Closed(rows, S) ==> found <= S
  {
    hide ClaimedBy, OverLink;
    found := OverLink(rows);
    var frontier := found;
    ghost var settled: set<Name> := {};
    ghost var aliases := set r | r in rows :: r.alias;
    LinksAreAliases(rows);
    ClaimsAreAliases(rows, {});
    while frontier != {}
      invariant found == settled + frontier && settled !! frontier && found <= aliases && OverLink(rows) <= found
      invariant ClaimedBy(rows, settled) <= found
      invariant forall S :: Closed(rows, S) ==> found <= S
      decreases aliases - settled
    {
      var reached := Round(rows, frontier);
      forall S | Closed(rows, S) ensures reached <= S { ClaimsGrow(rows, frontier, S); }
      ClaimsAreAliases(rows, frontier);
      ClaimsOfUnion(rows, settled, frontier);
      settled := settled + frontier;
      frontier := reached - found;
      found := found + frontier;
    }
    assert found == settled;
  }

  lemma LinksAreAliases(rows: set<Synonym>)
    ensures OverLink(rows) <= set r | r in rows :: r.alias
  {}

  lemma ClaimsAreAliases(rows: set<Synonym>, S: set<Name>)
    ensures ClaimedBy(rows, S) <= set r | r in rows :: r.alias
    ensures ClaimedBy(rows, {}) == {}
  {}
}
