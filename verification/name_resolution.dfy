/** `_out_of_sight` and `resolve_called_functions`: asking Oracle to resolve a name only where no hop
    of the resolution can leave what this session sees. */
module NameResolution {
  import opened Characters
  import opened Options
  import opened Ordering
  import opened OracleNames
  import LinkClosure

  const PUBLIC := "PUBLIC"

  /** Where a synonym points. A target without an owner is the synonym's own schema's. */
  datatype Hop = Hop(owner: Option<string>, target: string, overLink: bool)

  /** Synonyms, and the objects that share their namespace. */
  datatype Dictionary = Dictionary(synonyms: map<Name, Hop>, objects: set<Name>) {
    /** A schema holds at most one synonym or object of a name. */
    ghost predicate Valid() { synonyms.Keys !! objects }
  }

  function TargetOf(at: Name, hop: Hop): Name {
    Name(if hop.owner.Some? && hop.owner.value != "" then hop.owner.value else at.owner, hop.target)
  }

  // ----- how Oracle resolves a name -----

  datatype Next = Goes(to: Name) | Crosses | Ends | Missing

  /** The schema's synonym of the name, then its object, then PUBLIC's synonym of the same name. */
  function Resolve(d: Dictionary, at: Name): Next {
    if at in d.synonyms then
      if d.synonyms[at].overLink then Crosses else Goes(TargetOf(at, d.synonyms[at]))
    else if at in d.objects then Ends
    else if at.owner != PUBLIC then Goes(Name(PUBLIC, at.name))
    else Missing
  }

  /** The resolution crosses a DB link within `n` hops. */
  ghost predicate CrossesWithin(d: Dictionary, at: Name, n: nat)
    decreases n
  {
    n > 0 && match Resolve(d, at)
             case Crosses => true
             case Goes(to) => CrossesWithin(d, to, n - 1)
             case _ => false
  }

  /** `v` is what `user` sees of `d`: all of its own schema, and elsewhere any part. */
  ghost predicate Sees(v: Dictionary, d: Dictionary, user: string) {
    && d.Valid()
    && (forall n :: n in v.synonyms ==> n in d.synonyms && v.synonyms[n] == d.synonyms[n])
    && v.objects <= d.objects
    && (forall n: Name :: n.owner == user ==>
         (n in d.synonyms ==> n in v.synonyms) &&
         (n in d.objects ==> n in v.objects))
  }

  // ----- the walk over what is seen -----

  /** A hop over a link, or onto a name not shown in a schema other than the user's. */
  predicate Blocked(v: Dictionary, user: string, at: Name) {
    if at in v.synonyms then v.synonyms[at].overLink
    else at !in v.objects && at.owner != user
  }

  function SeenStep(v: Dictionary, user: string, at: Name): Option<Name> {
    if Blocked(v, user, at) then None
    else if at in v.synonyms then Some(TargetOf(at, v.synonyms[at]))
    else if at in v.objects then None
    else Some(Name(PUBLIC, at.name))
  }

  /** Where the walk stands after `k` steps, if it gets that far. */
  ghost function After(v: Dictionary, user: string, at: Name, k: nat): Option<Name> {
    if k == 0 then Some(at) else
      match After(v, user, at, k - 1)
      case None => None
      case Some(m) => SeenStep(v, user, m)
  }

  ghost predicate Hidden(v: Dictionary, user: string, at: Name) {
    exists k: nat :: After(v, user, at, k).Some? && Blocked(v, user, After(v, user, at, k).value)
  }

  lemma {:induction false} AfterFirst(v: Dictionary, user: string, at: Name, k: nat)
    requires SeenStep(v, user, at).Some?
    ensures After(v, user, at, k + 1) == After(v, user, SeenStep(v, user, at).value, k)
  {
    if k > 0 { AfterFirst(v, user, at, k - 1); }
  }

  /** A name whose walk meets nothing hidden resolves, over the whole dictionary, without a link. */
  lemma {:induction false} NotHiddenIsSafe(v: Dictionary, d: Dictionary, user: string, at: Name, n: nat)
    requires Sees(v, d, user) && !Hidden(v, user, at)
    ensures !CrossesWithin(d, at, n)
    decreases n
  {
    assert After(v, user, at, 0) == Some(at);
    if n > 0 && Resolve(d, at).Goes? {
      var next := SeenStep(v, user, at);
      if next.Some? {
        forall k: nat | After(v, user, next.value, k).Some?
          ensures !Blocked(v, user, After(v, user, next.value, k).value)
        {
          AfterFirst(v, user, at, k);
        }
        NotHiddenIsSafe(v, d, user, next.value, n - 1);
      }
    }
  }

  /** A set of names the walk never leaves, none of them blocked. */
  lemma {:induction false} TrappedIsNotHidden(v: Dictionary, user: string, at: Name, S: set<Name>, k: nat)
    requires at in S
    requires forall m :: m in S ==>
               !Blocked(v, user, m) &&
               (SeenStep(v, user, m).Some? ==> SeenStep(v, user, m).value in S)
    ensures After(v, user, at, k).Some? ==> After(v, user, at, k).value in S
  {
    if k > 0 { TrappedIsNotHidden(v, user, at, S, k - 1); }
  }

  lemma TrappedForever(v: Dictionary, user: string, at: Name, S: set<Name>)
    requires at in S
    requires forall m :: m in S ==>
               !Blocked(v, user, m) &&
               (SeenStep(v, user, m).Some? ==> SeenStep(v, user, m).value in S)
    ensures !Hidden(v, user, at)
  {
    forall k: nat ensures After(v, user, at, k).Some? ==> After(v, user, at, k).value in S {
      TrappedIsNotHidden(v, user, at, S, k);
    }
  }

  /** Every name a walk from `start` can stand at. */
  ghost function Universe(v: Dictionary, start: Name): set<Name> {
    var direct := {start} + set m | m in v.synonyms :: TargetOf(m, v.synonyms[m]);
    direct + set m | m in direct :: Name(PUBLIC, m.name)
  }

  lemma UniverseClosed(v: Dictionary, user: string, start: Name, at: Name)
    requires at in Universe(v, start) && SeenStep(v, user, at).Some?
    ensures SeenStep(v, user, at).value in Universe(v, start)
  {
    var direct := {start} + set m | m in v.synonyms :: TargetOf(m, v.synonyms[m]);
    if at !in v.synonyms && at !in direct {
      var m :| m in direct && at == Name(PUBLIC, m.name);
    }
  }

  /** The names the walk has left behind: none blocked, each leading to another or to `at`. */
  ghost predicate Trail(v: Dictionary, user: string, seen: set<Name>, at: Name) {
    forall m :: m in seen ==>
      !Blocked(v, user, m) &&
      (SeenStep(v, user, m).Some? ==> SeenStep(v, user, m).value in seen + {at})
  }

  /** `_out_of_sight`: True exactly when the walk meets a link or a name it cannot see. */
  method OutOfSight(v: Dictionary, user: string, start: Name) returns (hidden: bool)
    ensures hidden <==> Hidden(v, user, start)
  {
    hide Universe;
    var seen: set<Name> := {};
    var at := start;
    ghost var k := 0;
    StartInUniverse(v, start);
    while at !in seen
      invariant seen <= Universe(v, start) && at in Universe(v, start)
      invariant After(v, user, start, k) == Some(at) && start in seen + {at}
      invariant Trail(v, user, seen, at)
      decreases Universe(v, start) - seen
    {
      if Blocked(v, user, at) {
        return true;
      }
      seen := seen + {at};
      if at in v.synonyms {
        UniverseClosed(v, user, start, at);
        at, k := TargetOf(at, v.synonyms[at]), k + 1;
      } else if at in v.objects {
        TrappedForever(v, user, start, seen);
        return false;
      } else {
        UniverseClosed(v, user, start, at);
        at, k := Name(PUBLIC, at.name), k + 1;
      }
    }
    assert seen + {at} == seen;
    TrappedForever(v, user, start, seen);
    return false;
  }

  lemma StartInUniverse(v: Dictionary, start: Name)
    ensures start in Universe(v, start)
  {}

  // ----- resolve_called_functions -----

  /** What NAME_RESOLVE makes of a stored name. */
  datatype Answer = NotPlsql | Unresolved | Names(schema: string, overLink: bool) | Fails

  /** A session: what it sees, as whom, in which schema, and which schemas are Oracle's own. */
  datatype Scope = Scope(seen: Dictionary, user: string, schema: string, oracleOwned: set<string>) {
    /** Resolving the stored name crosses no link, in any dictionary of which this session sees this part. */
    ghost predicate Safe(stored: string) {
      forall d, n: nat :: Sees(seen, d, user) ==> !CrossesWithin(d, Name(schema, stored), n)
    }
  }

  /** NAME_RESOLVE, which may be called only on a name whose resolution crosses no link. */
  type Resolver = string --> Answer

  ghost predicate Answers(o: Scope, resolver: Resolver) { forall s :: o.Safe(s) ==> resolver.requires(s) }

  /** ALL_SYNONYMS as the link closure reads it. */
  function Rows(v: Dictionary): set<LinkClosure.Synonym> {
    set n | n in v.synonyms :: LinkClosure.Synonym(n, v.synonyms[n].owner, v.synonyms[n].target, v.synonyms[n].overLink)
  }

  /** The names that are never handed to NAME_RESOLVE. */
  ghost predicate Refused(o: Scope, overLinks: set<Name>, stored: string) {
    Name(o.schema, stored) in overLinks || Hidden(o.seen, o.user, Name(o.schema, stored))
  }

  lemma NotRefusedIsSafe(o: Scope, overLinks: set<Name>, stored: string)
    requires !Refused(o, overLinks, stored)
    ensures o.Safe(stored)
  {
    hide Hidden, Sees, CrossesWithin;
    forall d, n: nat | Sees(o.seen, d, o.user) ensures !CrossesWithin(d, Name(o.schema, stored), n) {
      NotHiddenIsSafe(o.seen, d, o.user, Name(o.schema, stored), n);
    }
  }

  /** What a candidate alias comes to: a function defined here, a name that cannot be resolved, or neither. */
  datatype Verdict = Defines | Unresolvable | Neither

  ghost function Judge(o: Scope, overLinks: set<Name>, resolver: Resolver, c: Name): Verdict
    requires Answers(o, resolver)
  {
    if c in overLinks || Refused(o, overLinks, c.name) then Unresolvable
    else
      NotRefusedIsSafe(o, overLinks, c.name);
      match resolver(c.name)
      case NotPlsql => Neither
      case Unresolved => Unresolvable
      case Fails => Neither
      case Names(owner, link) =>
        if link then Unresolvable
        else if c.owner != PUBLIC || owner !in o.oracleOwned then Defines
        else Neither
  }

  datatype Inventory = Unavailable | Inventory(defined: set<string>, unresolvable: set<string>)

  ghost predicate LeastLinks(v: Dictionary, overLinks: set<Name>) {
    LinkClosure.Closed(Rows(v), overLinks) && forall S :: LinkClosure.Closed(Rows(v), S) ==> overLinks <= S
  }

  /** The lower-cased names of the candidates judged so. */
  ghost function Judged(o: Scope, overLinks: set<Name>, resolver: Resolver, candidates: set<Name>,
                        verdict: Verdict): set<string>
    requires Answers(o, resolver)
  {
    set c | c in candidates && Judge(o, overLinks, resolver, c) == verdict :: Lower(c.name)
  }

  /** The stored names whose resolution could leave what is seen. */
  method NamesOutOfSight(o: Scope, names: set<string>, overLinks: set<Name>) returns (out: set<string>)
    ensures forall n :: n in names ==> (Name(o.schema, n) in overLinks || n in out <==> Refused(o, overLinks, n))
  {
    hide Hidden, StrLe;
    StringOrder();
    var list := SortSet(StrLe, names);
    out := {};
    for i := 0 to |list|
      invariant forall n :: n in list[..i] ==>
                (Name(o.schema, n) in overLinks || n in out <==> Refused(o, overLinks, n))
      invariant out <= set n | n in list[..i]
    {
      assert list[..i + 1] == list[..i] + [list[i]];
      if Name(o.schema, list[i]) !in overLinks {
        var hidden := OutOfSight(o.seen, o.user, Name(o.schema, list[i]));
        if hidden { out := out + {list[i]}; }
      }
    }
    assert list[..|list|] == list;
  }

  method LinksOf(v: Dictionary) returns (links: set<Name>)
    ensures LeastLinks(v, links)
  {
    links := LinkClosure.SynonymsReachingALink(Rows(v));
  }

  /** Each candidate judged; NAME_RESOLVE is asked only about names whose resolution, from the current
      schema over whatever dictionary this session sees part of, crosses no link. */
  method ResolveCandidates(o: Scope, own: set<string>, candidates: set<Name>, resolver: Resolver)
    returns (inventory: Inventory, asked: seq<string>, overLinks: set<Name>)
    requires Answers(o, resolver)
    ensures forall s :: s in asked ==> o.Safe(s) && resolver.requires(s)
    ensures LeastLinks(o.seen, overLinks)
    ensures inventory.Unavailable? ==> exists s :: s in asked && resolver.requires(s) && resolver(s).Fails?
    ensures inventory.Inventory? ==> Inventoried(o, own, candidates, overLinks, resolver, inventory)
  {
    hide Hidden, Rows, NameLe, Scope.Safe, Lower, Judge, Judged, SortSet, LeastLinks;
    overLinks := LinksOf(o.seen);
    var out := NamesOutOfSight(o, set c | c in candidates :: c.name, overLinks);
    NameOrder();
    var list := SortSet(NameLe, candidates);
    var defined, unresolvable: set<string> := own, {};
    asked := [];
    JudgedNone(o, overLinks, resolver);
    ghost var done: set<Name> := {};
    for i := 0 to |list|
      invariant done == set c | c in list[..i]
      invariant forall s :: s in asked ==> o.Safe(s)
      invariant defined == own + Judged(o, overLinks, resolver, done, Defines)
      invariant unresolvable == Judged(o, overLinks, resolver, done, Unresolvable)
    {
      var c := list[i];
      assert c in list;
      assert list[..i + 1] == list[..i] + [c];
      JudgedMore(o, overLinks, resolver, done, c, Defines);
      JudgedMore(o, overLinks, resolver, done, c, Unresolvable);
      done := done + {c};
      var refused := c in overLinks || Name(o.schema, c.name) in overLinks || c.name in out;
      var verdict, failed := Consider(o, overLinks, refused, resolver, c);
      if !refused {
        NotRefusedIsSafe(o, overLinks, c.name);
        asked := asked + [c.name];
      }
      if failed {
        return Unavailable, asked, overLinks;
      }
      match verdict
      case Defines => defined := defined + {Lower(c.name)};
      case Unresolvable => unresolvable := unresolvable + {Lower(c.name)};
      case Neither =>
    }
    assert list[..|list|] == list && done == candidates;
    inventory := Inventory(defined, unresolvable - defined);
  }

  /** What the inventory is of: each candidate's verdict, a name defined anywhere winning. */
  ghost predicate Inventoried(o: Scope, own: set<string>, candidates: set<Name>, overLinks: set<Name>,
                              resolver: Resolver, inventory: Inventory)
    requires Answers(o, resolver)
  {
    inventory.Inventory? &&
    inventory.defined == own + Judged(o, overLinks, resolver, candidates, Defines) &&
    inventory.unresolvable == Judged(o, overLinks, resolver, candidates, Unresolvable) - inventory.defined
  }

  /** The resolver puts the name on an object of this database that counts: of any schema, but for a PUBLIC
      alias not Oracle's own. */
  predicate Counts(o: Scope, resolver: Resolver, c: Name)
    requires resolver.requires(c.name)
  {
    var r := resolver(c.name);
    r.Names? && !r.overLink && (c.owner == PUBLIC ==> r.schema !in o.oracleOwned)
  }

  /** A name reported as defined is the schema's own function, or an alias the resolver puts on a local object
      and whose resolution crosses no link in any dictionary this session sees part of. */
  lemma DefinedIsLocal(o: Scope, own: set<string>, candidates: set<Name>, overLinks: set<Name>, resolver: Resolver,
                       inventory: Inventory, name: string)
    requires Answers(o, resolver)
    requires Inventoried(o, own, candidates, overLinks, resolver, inventory) && name in inventory.defined
    ensures name in own ||
            exists c :: c in candidates && Lower(c.name) == name && c !in overLinks && o.Safe(c.name) &&
              Counts(o, resolver, c)
  {
    hide Lower, Hidden, Scope.Safe;
    if name !in own {
      var c :| c in candidates && Judge(o, overLinks, resolver, c) == Defines && Lower(c.name) == name;
      NotRefusedIsSafe(o, overLinks, c.name);
      assert Counts(o, resolver, c);
    }
  }

  /** A candidate that resolves over a link in some dictionary this session sees part of, or is itself among the
      synonyms that reach one, is never why a name is defined: its name is reported unresolvable unless something
      else defines it. */
  lemma CrossingIsUnresolvable(o: Scope, own: set<string>, candidates: set<Name>, overLinks: set<Name>,
                               resolver: Resolver, inventory: Inventory, c: Name)
    requires Answers(o, resolver)
    requires Inventoried(o, own, candidates, overLinks, resolver, inventory) && c in candidates
    requires c in overLinks || !o.Safe(c.name)
    ensures Judge(o, overLinks, resolver, c) == Unresolvable
    ensures Lower(c.name) in inventory.defined + inventory.unresolvable
  {
    hide Lower, Hidden, Scope.Safe;
    if !Refused(o, overLinks, c.name) { NotRefusedIsSafe(o, overLinks, c.name); }
  }

  /** A candidate in neither list resolves, to what is no function, or to Oracle's own by a PUBLIC alias. */
  lemma DroppedIsHarmless(o: Scope, own: set<string>, candidates: set<Name>, overLinks: set<Name>, resolver: Resolver,
                          inventory: Inventory, c: Name)
    requires Answers(o, resolver)
    requires Inventoried(o, own, candidates, overLinks, resolver, inventory) && c in candidates
    requires Lower(c.name) !in inventory.defined + inventory.unresolvable
    requires o.Safe(c.name) ==> !resolver(c.name).Fails?
    ensures !Refused(o, overLinks, c.name) && o.Safe(c.name)
    ensures var r := resolver(c.name);
            r.NotPlsql? || (r.Names? && !r.overLink && c.owner == PUBLIC && r.schema in o.oracleOwned)
  {
    hide Lower, Hidden, Scope.Safe;
    var verdict := Judge(o, overLinks, resolver, c);
    assert Lower(c.name) in Judged(o, overLinks, resolver, candidates, verdict);
    if !Refused(o, overLinks, c.name) { NotRefusedIsSafe(o, overLinks, c.name); }
  }

  /** Nothing that resolves is lost: a candidate that is not refused, and that the resolver puts on a local object
      that counts, has its name defined, whatever becomes of the others. */
  lemma CountedIsDefined(o: Scope, own: set<string>, candidates: set<Name>, overLinks: set<Name>, resolver: Resolver,
                         inventory: Inventory, c: Name)
    requires Answers(o, resolver)
    requires Inventoried(o, own, candidates, overLinks, resolver, inventory) && c in candidates
    requires c !in overLinks && !Refused(o, overLinks, c.name) && (o.Safe(c.name) ==> Counts(o, resolver, c))
    ensures o.Safe(c.name) && Lower(c.name) in inventory.defined
  {
    hide Lower, Hidden, Scope.Safe;
    NotRefusedIsSafe(o, overLinks, c.name);
    assert Judge(o, overLinks, resolver, c) == Defines;
    assert Lower(c.name) in Judged(o, overLinks, resolver, candidates, Defines);
  }

  /** Nothing is unresolvable without a cause: some candidate of the name is refused, or the resolver could not place
      it, or put it over a link; and no candidate of the name counts. */
  lemma UnresolvableHasACause(o: Scope, own: set<string>, candidates: set<Name>, overLinks: set<Name>,
                              resolver: Resolver, inventory: Inventory, name: string)
    requires Answers(o, resolver)
    requires Inventoried(o, own, candidates, overLinks, resolver, inventory) && name in inventory.unresolvable
    ensures exists c :: c in candidates && Lower(c.name) == name && NotPlaced(o, overLinks, resolver, c)
    ensures name !in own
    ensures forall c ::
              c in candidates && Lower(c.name) == name && c !in overLinks && !Refused(o, overLinks, c.name) ==>
              o.Safe(c.name) && !Counts(o, resolver, c)
  {
    hide Lower, Hidden, Scope.Safe;
    var c :| c in candidates && Judge(o, overLinks, resolver, c) == Unresolvable && Lower(c.name) == name;
    if !Refused(o, overLinks, c.name) { NotRefusedIsSafe(o, overLinks, c.name); }
    assert NotPlaced(o, overLinks, resolver, c);
    forall c | c in candidates && Lower(c.name) == name && c !in overLinks && !Refused(o, overLinks, c.name)
      ensures o.Safe(c.name) && !Counts(o, resolver, c)
    {
      NotRefusedIsSafe(o, overLinks, c.name);
      if Counts(o, resolver, c) { CountedIsDefined(o, own, candidates, overLinks, resolver, inventory, c); }
    }
  }

  /** The candidate is refused, or NAME_RESOLVE does not place it in this database. */
  ghost predicate NotPlaced(o: Scope, overLinks: set<Name>, resolver: Resolver, c: Name)
    requires Answers(o, resolver)
  {
    c in overLinks || Refused(o, overLinks, c.name) ||
    (o.Safe(c.name) && (resolver(c.name).Unresolved? || (resolver(c.name).Names? && resolver(c.name).overLink)))
  }

  /** And whatever cannot be placed is reported, unless another candidate defines the name. */
  lemma NotPlacedIsReported(o: Scope, own: set<string>, candidates: set<Name>, overLinks: set<Name>, resolver: Resolver,
                            inventory: Inventory, c: Name)
    requires Answers(o, resolver)
    requires Inventoried(o, own, candidates, overLinks, resolver, inventory) && c in candidates
    requires NotPlaced(o, overLinks, resolver, c)
    ensures Lower(c.name) in inventory.unresolvable || Lower(c.name) in inventory.defined
  {
    hide Lower, Hidden, Scope.Safe;
    assert Judge(o, overLinks, resolver, c) == Unresolvable;
    assert Lower(c.name) in Judged(o, overLinks, resolver, candidates, Unresolvable);
  }

  /** One candidate: refused unasked, or put to NAME_RESOLVE, which only a name that crosses no link may be. */
  method Consider(o: Scope, links: set<Name>, refused: bool, resolver: Resolver, c: Name)
    returns (verdict: Verdict, failed: bool)
    requires Answers(o, resolver)
    requires refused <==> c in links || Refused(o, links, c.name)
    ensures !refused ==> o.Safe(c.name)
    ensures failed <==> !refused && resolver(c.name).Fails?
    ensures verdict == Judge(o, links, resolver, c)
  {
    hide Hidden, Scope.Safe;
    verdict, failed := Neither, false;
    if refused {
      verdict := Unresolvable;
    } else {
      NotRefusedIsSafe(o, links, c.name);
      match resolver(c.name)
      case Fails => failed := true;
      case NotPlsql =>
      case Unresolved => verdict := Unresolvable;
      case Names(owner, link) =>
        if link {
          verdict := Unresolvable;
        } else if c.owner != PUBLIC || owner !in o.oracleOwned {
          verdict := Defines;
        }
    }
  }

  lemma JudgedNone(o: Scope, overLinks: set<Name>, resolver: Resolver)
    requires Answers(o, resolver)
    ensures forall verdict :: Judged(o, overLinks, resolver, {}, verdict) == {}
  {}

  lemma JudgedMore(o: Scope, overLinks: set<Name>, resolver: Resolver, candidates: set<Name>, c: Name, verdict: Verdict)
    requires Answers(o, resolver)
    ensures Judged(o, overLinks, resolver, candidates + {c}, verdict) ==
            Judged(o, overLinks, resolver, candidates, verdict) +
            if Judge(o, overLinks, resolver, c) == verdict then {Lower(c.name)} else {}
  {
    hide Judge;
  }

  // ----- what the link closure is for -----

  /** Every local synonym of the dictionary names its target's owner. */
  ghost predicate OwnersKnown(d: Dictionary) {
    forall a :: a in d.synonyms && !d.synonyms[a].overLink ==>
      d.synonyms[a].owner.Some? && d.synonyms[a].owner.value != ""
  }

  /** Of what is all seen, the closure holds every synonym whose resolution crosses a link, at whatever hop, and the
      PUBLIC one behind every other name whose does. */
  lemma {:induction false} CrossingIsClaimed(d: Dictionary, S: set<Name>, at: Name, n: nat)
    requires OwnersKnown(d) && LinkClosure.Closed(Rows(d), S) && CrossesWithin(d, at, n)
    ensures at in S || (at !in d.synonyms && Name(PUBLIC, at.name) in S)
    decreases n
  {
    if at in d.synonyms {
      var hop := d.synonyms[at];
      var r := LinkClosure.Synonym(at, hop.owner, hop.target, hop.overLink);
      assert r in Rows(d);
      if hop.overLink {
        assert at in LinkClosure.OverLink(Rows(d));
      } else {
        var to := TargetOf(at, hop);
        CrossingIsClaimed(d, S, to, n - 1);
        var m := if to in S then to else Name(PUBLIC, to.name);
        assert LinkClosure.Claims(m, r) && m in S;
        assert at in LinkClosure.ClaimedBy(Rows(d), S);
      }
    } else {
      CrossingIsClaimed(d, S, Name(PUBLIC, at.name), n - 1);
    }
  }
}
