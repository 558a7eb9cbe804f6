/** `_synonyms_reaching_functions`: which aliases end at a function, and which over a DB link. */
module SynonymReach {
  import opened Options
  import opened Ordering
  import opened Graphs
  import opened OracleNames

  /** A row of ALL_SYNONYMS, folded to lower case. */
  datatype Row = Row(alias: Name, owner: Option<string>, target: Option<string>, overLink: bool)

  type Edges = map<Name, Name>

  const PUBLIC := "public"
  const OWNER_BATCH: nat := 900

  function Public(n: Name): Name { Name(PUBLIC, n.name) }

  // ----- reading the rows -----

  /** The local alias edges: a later row for the same alias replaces an earlier one. */
  function EdgesOf(rows: seq<Row>): Edges {
    if rows == [] then map[] else
      var r := rows[|rows| - 1];
      var before := EdgesOf(rows[..|rows| - 1]);
      if !r.overLink && r.owner.Some? && r.target.Some?
      then before[r.alias := Name(r.owner.value, r.target.value)] else before
  }

  function LinksOf(rows: seq<Row>): set<Name> {
    set r | r in rows && r.overLink :: r.alias
  }

  method ReadRows(rows: seq<Row>) returns (edges: Edges, overLink: set<Name>)
    ensures edges == EdgesOf(rows) && overLink == LinksOf(rows)
  {
    edges, overLink := map[], {};
    for i := 0 to |rows|
      invariant edges == EdgesOf(rows[..i]) && overLink == LinksOf(rows[..i])
    {
      var r := rows[i];
      assert rows[..i + 1][..i] == rows[..i] && rows[..i + 1] == rows[..i] + [r];
      if r.overLink {
        overLink := overLink + {r.alias};
      } else if r.owner.Some? && r.target.Some? {
        edges := edges[r.alias := Name(r.owner.value, r.target.value)];
      }
    }
    assert rows[..|rows|] == rows;
  }

  // ----- the graph both walks use -----

  function Nodes(edges: Edges): set<Name> { edges.Keys + edges.Values }

  /** From each node, its own edge and the PUBLIC one of its bare name; neither is preferred. */
  function Hops(edges: Edges): set<(Name, Name)> {
    (set a | a in edges :: (a, edges[a])) +
    (set a | a in Nodes(edges) && Public(a) in edges :: (a, edges[Public(a)]))
  }

  /** An adjacency dictionary holds exactly the edges of `E`. */
  ghost predicate Adjacent(adjacency: map<Name, seq<Name>>, E: set<(Name, Name)>) {
    forall a, b :: (a, b) in E <==> a in adjacency && b in adjacency[a]
  }

  function Append(adjacency: map<Name, seq<Name>>, a: Name, b: Name): map<Name, seq<Name>> {
    adjacency[a := (if a in adjacency then adjacency[a] else []) + [b]]
  }

  lemma Appending(adjacency: map<Name, seq<Name>>, E: set<(Name, Name)>, a: Name, b: Name)
    requires Adjacent(adjacency, E)
    ensures Adjacent(Append(adjacency, a, b), E + {(a, b)})
  {}

  /** The hops out of the nodes of `S`. */
  function HopsFrom(edges: Edges, S: set<Name>): set<(Name, Name)> {
    (set a | a in S && a in edges :: (a, edges[a])) +
    (set a | a in S && Public(a) in edges :: (a, edges[Public(a)]))
  }

  lemma HopsFromOne(edges: Edges, S: set<Name>, a: Name)
    ensures HopsFrom(edges, S + {a}) == HopsFrom(edges, S)
      + (if a in edges then {(a, edges[a])} else {}) + (if Public(a) in edges then {(a, edges[Public(a)])} else {})
  {}

  lemma FlipUnion(E: set<(Name, Name)>, a: Name, b: Name)
    ensures Flip(E + {(a, b)}) == Flip(E) + {(b, a)}
  {
    var F := E + {(a, b)};
    forall e | e in Flip(E) + {(b, a)} ensures e in Flip(F) { assert (e.1, e.0) in F; }
  }

  /** `forward` and `backwards`, filled in one pass over the nodes. */
  method BuildAdjacency(edges: Edges) returns (forward: map<Name, seq<Name>>, backwards: map<Name, seq<Name>>)
    ensures Adjacent(forward, Hops(edges)) && Adjacent(backwards, Flip(Hops(edges)))
  {
    hide HopsFrom, Adjacent;
    forward, backwards := map[], map[];
    var pending := Nodes(edges);
    ghost var done: set<Name> := {};
    ghost var E: set<(Name, Name)> := {};
    EmptyAdjacency(edges);
    while pending != {}
      invariant pending + done == Nodes(edges) && pending !! done && E == HopsFrom(edges, done)
      invariant Adjacent(forward, E) && Adjacent(backwards, Flip(E))
      decreases pending
    {
      var at :| at in pending;
      HopsFromOne(edges, done, at);
      if at in edges {
        forward, backwards, E := Link(forward, backwards, E, at, edges[at]);
      }
      if Public(at) in edges {
        forward, backwards, E := Link(forward, backwards, E, at, edges[Public(at)]);
      }
      pending, done := pending - {at}, done + {at};
    }
    assert done == Nodes(edges);
    AllHops(edges);
  }

  method Link(forward: map<Name, seq<Name>>, backwards: map<Name, seq<Name>>, ghost E: set<(Name, Name)>, at: Name,
              step: Name)
    returns (f: map<Name, seq<Name>>, b: map<Name, seq<Name>>, ghost F: set<(Name, Name)>)
    requires Adjacent(forward, E) && Adjacent(backwards, Flip(E))
    ensures F == E + {(at, step)} && Adjacent(f, F) && Adjacent(b, Flip(F))
  {
    hide Adjacent;
    Appending(forward, E, at, step);
    Appending(backwards, Flip(E), step, at);
    FlipUnion(E, at, step);
    f, b, F := Append(forward, at, step), Append(backwards, step, at), E + {(at, step)};
  }

  lemma EmptyAdjacency(edges: Edges)
    ensures HopsFrom(edges, {}) == {} && Flip<Name>({}) == {} && Adjacent(map[], {})
  {}

  lemma AllHops(edges: Edges)
    ensures HopsFrom(edges, Nodes(edges)) == Hops(edges)
  {}

  // ----- the walk -----

  ghost predicate ReachedFrom(E: set<(Name, Name)>, seeds: set<Name>, x: Name) {
    exists s :: s in seeds && Reaches(E, s, x)
  }

  /** Whatever is marked and no longer on the stack has had its neighbours marked. */
  ghost predicate Explored(E: set<(Name, Name)>, seen: set<Name>, stack: seq<Name>) {
    forall a, b :: (a, b) in E && a in seen && a !in stack ==> b in seen
  }

  lemma ExploredOn(E: set<(Name, Name)>, marked: set<Name>, rest: seq<Name>, at: Name, seen: set<Name>,
                   stack: seq<Name>)
    requires Explored(E, marked, rest + [at]) && marked <= seen
    requires forall b :: (at, b) in E ==> b in seen
    requires forall x :: x in stack <==> x in rest || x in seen - marked
    ensures Explored(E, seen, stack)
  {
    forall a, b | (a, b) in E && a in seen && a !in stack ensures b in seen {
      if a != at { assert a in marked && a !in rest + [at]; }
    }
  }

  lemma ExploredAll(E: set<(Name, Name)>, seeds: set<Name>, seen: set<Name>)
    requires seeds <= seen && Explored(E, seen, []) && forall x :: x in seen ==> ReachedFrom(E, seeds, x)
    ensures forall x :: x in seen <==> ReachedFrom(E, seeds, x)
  {
    assert Closed(E, seen);
    forall x | ReachedFrom(E, seeds, x) ensures x in seen {
      var s :| s in seeds && Reaches(E, s, x);
      StaysInside(E, seen, s, x);
    }
  }

  lemma ExploredNone(E: set<(Name, Name)>, seen: set<Name>, stack: seq<Name>)
    requires forall x :: x in stack <==> x in seen
    ensures Explored(E, seen, stack)
  {}

  lemma SeedsReached(E: set<(Name, Name)>, seeds: set<Name>)
    ensures forall s :: s in seeds ==> ReachedFrom(E, seeds, s)
  {
    forall s | s in seeds ensures ReachedFrom(E, seeds, s) { Here(E, s); }
  }

  /** `spread`: everything the seeds reach, and nothing else. A cycle ends at `seen`. */
  method Spread(seeds: set<Name>, adjacency: map<Name, seq<Name>>, ghost E: set<(Name, Name)>) returns (seen: set<Name>)
    requires Adjacent(adjacency, E)
    ensures forall x :: x in seen <==> ReachedFrom(E, seeds, x)
  {
    hide ReachedFrom, Adjacent, Explored;
    seen := seeds;
    var stack := ListOf(seeds);
    ghost var universe := seeds + set e | e in E :: e.1;
    SeedsReached(E, seeds);
    ExploredNone(E, seen, stack);
    while stack != []
      invariant seeds <= seen <= universe && forall x :: x in stack ==> x in seen
      invariant forall x :: x in seen ==> ReachedFrom(E, seeds, x)
      invariant Explored(E, seen, stack)
      decreases |universe - seen|, |stack|
    {
      var at, rest := stack[|stack| - 1], stack[..|stack| - 1];
      assert rest + [at] == stack;
      ghost var before := seen;
      seen, stack := Visit(seeds, adjacency, E, seen, rest, at);
      ExploredOn(E, before, rest, at, seen, stack);
      if seen != before { Shrinks(universe, before, seen); }
    }
    ExploredAll(E, seeds, seen);
  }

  lemma Shrinks(universe: set<Name>, before: set<Name>, seen: set<Name>)
    requires before < seen <= universe
    ensures |universe - seen| < |universe - before|
  {
    var x :| x in seen && x !in before;
    assert universe - seen <= (universe - before) - {x};
    Fewer(universe - seen, (universe - before) - {x});
  }

  lemma {:induction false} Fewer(a: set<Name>, b: set<Name>)
    requires a <= b
    ensures |a| <= |b|
  {
    assert b == a + (b - a);
  }

  method ListOf(s: set<Name>) returns (q: seq<Name>)
    ensures forall x :: x in q <==> x in s
  {
    NameOrder();
    q := SortSet(NameLe, s);
  }

  /** One popped node: its unseen neighbours are marked and pushed. */
  method Visit(ghost seeds: set<Name>, adjacency: map<Name, seq<Name>>, ghost E: set<(Name, Name)>,
               marked: set<Name>, rest: seq<Name>, at: Name)
    returns (seen: set<Name>, stack: seq<Name>)
    requires Adjacent(adjacency, E) && ReachedFrom(E, seeds, at)
    requires forall x :: x in marked ==> ReachedFrom(E, seeds, x)
    ensures marked <= seen && forall x :: x in seen ==> ReachedFrom(E, seeds, x)
    ensures forall x :: x in seen ==> x in marked || (at, x) in E
    ensures forall x :: x in stack <==> x in rest || x in seen - marked
    ensures forall b :: (at, b) in E ==> b in seen
    ensures seen == marked ==> stack == rest
  {
    seen, stack := marked, rest;
    if at in adjacency {
      var next := adjacency[at];
      for i := 0 to |next|
        invariant marked <= seen && forall x :: x in seen ==> ReachedFrom(E, seeds, x)
        invariant forall x :: x in seen ==> x in marked || (at, x) in E
        invariant forall x :: x in stack <==> x in rest || x in seen - marked
        invariant forall k :: 0 <= k < i ==> next[k] in seen
        invariant seen == marked ==> stack == rest
      {
        assert (at, next[i]) in E;
        if next[i] !in seen {
          ReachOn(E, seeds, at, next[i]);
          seen, stack := seen + {next[i]}, stack + [next[i]];
        }
      }
    }
  }

  lemma ReachOn(E: set<(Name, Name)>, seeds: set<Name>, a: Name, b: Name)
    requires ReachedFrom(E, seeds, a) && (a, b) in E
    ensures ReachedFrom(E, seeds, b)
  {
    var s :| s in seeds && Reaches(E, s, a);
    Step(E, a, b);
    Through(E, s, a, b);
  }

  // ----- which functions are read -----

  /** The targets of this schema's own aliases. */
  function MineTargets(edges: Edges, mine: string): set<Name> {
    set a | a in edges && a.owner == mine :: edges[a]
  }

  /** Whose functions are asked for: owners this schema's aliases reach, and any owner outside
      Oracle's own schemas that some alias targets. */
  ghost predicate Asked(edges: Edges, mine: string, oracleOwned: set<string>, owner: string) {
    || (exists x: Name :: x.owner == owner && ReachedFrom(Hops(edges), MineTargets(edges, mine), x))
    || (owner !in oracleOwned && exists t :: t in edges.Values && t.owner == owner)
  }

  function OwnedIn(dictionary: set<Name>, owners: seq<string>): set<Name> {
    set f | f in dictionary && f.owner in owners
  }

  method ReadFunctions(dictionary: set<Name>, owners: seq<string>) returns (functions: set<Name>)
    ensures functions == OwnedIn(dictionary, owners)
  {
    functions := {};
    var start := 0;
    while start < |owners|
      invariant 0 <= start && functions == OwnedIn(dictionary, owners[..if start < |owners| then start else |owners|])
    {
      var stop := if start + OWNER_BATCH < |owners| then start + OWNER_BATCH else |owners|;
      functions := functions + OwnedIn(dictionary, owners[start..stop]);
      assert owners[..stop] == owners[..start] + owners[start..stop];
      start := start + OWNER_BATCH;
    }
    assert owners[..|owners|] == owners;
  }

  // ----- what is reported -----

  /** Names no local walk can settle, so taken to reach a function: the link aliases, and a node whose
      PUBLIC namesake is one. */
  function Unprovable(edges: Edges, overLink: set<Name>): set<Name> {
    overLink + set a | a in Nodes(edges) && Public(a) in overLink
  }

  /** The functions the walk can arrive at, `free` of Oracle's own schemas or not. */
  ghost predicate Counts(edges: Edges, dictionary: set<Name>, oracleOwned: set<string>, mine: string, free: bool,
                         x: Name) {
    x in dictionary && x in Nodes(edges) && Asked(edges, mine, oracleOwned, x.owner) &&
    (free ==> x.owner !in oracleOwned)
  }

  ghost predicate Arrives(edges: Edges, overLink: set<Name>, dictionary: set<Name>, oracleOwned: set<string>,
                          mine: string, free: bool, a: Name) {
    exists x :: Reaches(Hops(edges), a, x) &&
                (x in Unprovable(edges, overLink) || Counts(edges, dictionary, oracleOwned, mine, free, x))
  }

  ghost predicate Reported(edges: Edges, overLink: set<Name>, dictionary: set<Name>, oracleOwned: set<string>,
                           mine: string, a: Name) {
    && a in edges.Keys + overLink
    && ((a.owner == mine && Arrives(edges, overLink, dictionary, oracleOwned, mine, false, a)) ||
        (a.owner == PUBLIC && Arrives(edges, overLink, dictionary, oracleOwned, mine, true, a)))
  }

  ghost function AllReported(edges: Edges, overLink: set<Name>, dictionary: set<Name>, oracleOwned: set<string>,
                             mine: string): set<Name> {
    set a | a in edges.Keys + overLink && Reported(edges, overLink, dictionary, oracleOwned, mine, a)
  }

  /** The walk backwards from the ends is the walk forwards to them. */
  lemma BackwardsIsForwards(E: set<(Name, Name)>, ends: set<Name>, a: Name)
    ensures ReachedFrom(Flip(E), ends, a) <==> exists x :: x in ends && Reaches(E, a, x)
  {
    FlipTwice(E);
    if ReachedFrom(Flip(E), ends, a) {
      var x :| x in ends && Reaches(Flip(E), x, a);
      FlipReaches(Flip(E), x, a);
    }
    if x :| x in ends && Reaches(E, a, x) {
      FlipReaches(E, a, x);
    }
  }

  method OwnersToAsk(edges: Edges, forward: map<Name, seq<Name>>, mine: string, oracleOwned: set<string>)
    returns (owners: seq<string>)
    requires Adjacent(forward, Hops(edges))
    ensures forall o :: o in owners <==> Asked(edges, mine, oracleOwned, o)
  {
    hide ReachedFrom, Hops, Adjacent, StrLe;
    var mineReaches := Spread(MineTargets(edges, mine), forward, Hops(edges));
    var wanted := (set x | x in mineReaches :: x.owner) +
      (set t | t in edges.Values && t.owner !in oracleOwned :: t.owner);
    StringOrder();
    owners := SortSet(StrLe, wanted);
  }

  /** The aliases reported and, of their names, which resolve and which are only over a link. */
  method SynonymsReachingFunctions(rows: seq<Row>, dictionary: set<Name>, oracleOwned: set<string>, mine: string)
    returns (resolvable: set<string>, links: set<string>)
    ensures var reported := AllReported(EdgesOf(rows), LinksOf(rows), dictionary, oracleOwned, mine);
            resolvable == (set a | a in reported && a !in LinksOf(rows) :: a.name) &&
            links == (set a | a in reported && a in LinksOf(rows) :: a.name) - resolvable &&
            resolvable !! links && resolvable + links == set a | a in reported :: a.name
    ensures forall n :: n in resolvable + links ==> NamesAChain(EdgesOf(rows), LinksOf(rows), dictionary, mine, n)
    ensures forall a: Name :: a.owner == mine && OwnChainEnds(EdgesOf(rows), LinksOf(rows), dictionary, a) ==>
              a.name in resolvable + links
  {
    hide EdgesOf, LinksOf, Hops, Adjacent, Reported, ReachedFrom, Asked, Counts, NamesAChain, OwnChainEnds;
    var edges, overLink := ReadRows(rows);
    NamesAreSound(edges, overLink, dictionary, oracleOwned, mine);
    NamesAreComplete(edges, overLink, dictionary, oracleOwned, mine);
    if edges == map[] && overLink == {} {
      NoAliases(dictionary, oracleOwned, mine);
      return {}, {};
    }
    var forward, backwards := BuildAdjacency(edges);
    var owners := OwnersToAsk(edges, forward, mine, oracleOwned);
    var functions := ReadFunctions(dictionary, owners);
    var unprovable := Unprovable(edges, overLink);
    var ends := (functions * Nodes(edges)) + unprovable;
    var freeEnds := (set f | f in functions * Nodes(edges) && f.owner !in oracleOwned) + unprovable;
    var reachesAny := Spread(ends, backwards, Flip(Hops(edges)));
    var reachesFree := Spread(freeEnds, backwards, Flip(Hops(edges)));
    var found := set a | a in edges.Keys + overLink &&
      ((a.owner == mine && a in reachesAny) || (a.owner == PUBLIC && a in reachesFree));
    forall a ensures a in reachesAny <==> Arrives(edges, overLink, dictionary, oracleOwned, mine, false, a) {
      EndsReached(edges, overLink, dictionary, oracleOwned, mine, owners, false, ends, a);
    }
    forall a ensures a in reachesFree <==> Arrives(edges, overLink, dictionary, oracleOwned, mine, true, a) {
      EndsReached(edges, overLink, dictionary, oracleOwned, mine, owners, true, freeEnds, a);
    }
    forall a ensures a in found <==> Reported(edges, overLink, dictionary, oracleOwned, mine, a) {
      ReportedMeans(edges, overLink, dictionary, oracleOwned, mine, a);
    }
    assert found == AllReported(edges, overLink, dictionary, oracleOwned, mine);
    resolvable := set a | a in found && a !in overLink :: a.name;
    links := (set a | a in found && a in overLink :: a.name) - resolvable;
  }

  lemma ReportedMeans(edges: Edges, overLink: set<Name>, dictionary: set<Name>, oracleOwned: set<string>, mine: string,
                      a: Name)
    ensures Reported(edges, overLink, dictionary, oracleOwned, mine, a) <==>
      && a in edges.Keys + overLink
      && ((a.owner == mine && Arrives(edges, overLink, dictionary, oracleOwned, mine, false, a)) ||
          (a.owner == PUBLIC && Arrives(edges, overLink, dictionary, oracleOwned, mine, true, a)))
  {}

  lemma NoAliases(dictionary: set<Name>, oracleOwned: set<string>, mine: string)
    ensures forall a :: !Reported(map[], {}, dictionary, oracleOwned, mine, a)
  {}

  lemma EndsReached(edges: Edges, overLink: set<Name>, dictionary: set<Name>, oracleOwned: set<string>, mine: string,
                    owners: seq<string>, free: bool, ends: set<Name>, a: Name)
    requires forall o :: o in owners <==> Asked(edges, mine, oracleOwned, o)
    requires forall x :: x in ends <==>
      (x in Unprovable(edges, overLink) ||
       (x in OwnedIn(dictionary, owners) && x in Nodes(edges) && (free ==> x.owner !in oracleOwned)))
    ensures ReachedFrom(Flip(Hops(edges)), ends, a) <==>
            Arrives(edges, overLink, dictionary, oracleOwned, mine, free, a)
  {
    hide Asked, Hops, ReachedFrom;
    BackwardsIsForwards(Hops(edges), ends, a);
  }

  // ----- what the report promises -----

  /** The alias is over a link, or its own target's chain, with the PUBLIC fallback at every later
      hop, ends at a function or at a name no local walk can settle. */
  ghost predicate OwnChainEnds(edges: Edges, overLink: set<Name>, dictionary: set<Name>, a: Name) {
    || a in overLink
    || (a in edges && exists x ::
         Reaches(Hops(edges), edges[a], x) &&
         (x in dictionary || x in Unprovable(edges, overLink)))
  }

  /** The chain of this alias, with the PUBLIC fallback allowed at its first hop too, ends at a
      function or at a name no local walk can settle. */
  ghost predicate HasChain(edges: Edges, overLink: set<Name>, dictionary: set<Name>, a: Name) {
    exists x :: Reaches(Hops(edges), a, x) && (x in dictionary || x in Unprovable(edges, overLink))
  }

  /** An alias of this schema or of PUBLIC has this name and such a chain. */
  ghost predicate NamesAChain(edges: Edges, overLink: set<Name>, dictionary: set<Name>, mine: string, n: string) {
    exists a: Name :: a.name == n && a in edges.Keys + overLink && (a.owner == mine || a.owner == PUBLIC) &&
                      HasChain(edges, overLink, dictionary, a)
  }

  lemma NamesAreSound(edges: Edges, overLink: set<Name>, dictionary: set<Name>, oracleOwned: set<string>, mine: string)
    ensures forall a :: a in AllReported(edges, overLink, dictionary, oracleOwned, mine) ==>
              NamesAChain(edges, overLink, dictionary, mine, a.name)
  {
    hide HasChain, Arrives;
    forall a | a in AllReported(edges, overLink, dictionary, oracleOwned, mine)
      ensures NamesAChain(edges, overLink, dictionary, mine, a.name)
    {
      ReportsHaveAChain(edges, overLink, dictionary, oracleOwned, mine, a);
    }
  }

  lemma NamesAreComplete(edges: Edges, overLink: set<Name>, dictionary: set<Name>, oracleOwned: set<string>,
                         mine: string)
    ensures forall a: Name :: a.owner == mine && OwnChainEnds(edges, overLink, dictionary, a) ==>
              a in AllReported(edges, overLink, dictionary, oracleOwned, mine)
  {
    hide OwnChainEnds, Arrives;
    forall a: Name | a.owner == mine && OwnChainEnds(edges, overLink, dictionary, a)
      ensures a in AllReported(edges, overLink, dictionary, oracleOwned, mine)
    {
      OwnChainsAreReported(edges, overLink, dictionary, oracleOwned, mine, a);
    }
  }

  lemma HopsStayInNodes(edges: Edges, a: Name, x: Name)
    requires a in Nodes(edges) && Reaches(Hops(edges), a, x)
    ensures x in Nodes(edges)
  {
    StaysInside(Hops(edges), Nodes(edges), a, x);
  }

  /** Nothing lost by reading only some owners' functions: every alias of this schema whose own chain
      ends at a function, or over a link, is reported. */
  lemma OwnChainsAreReported(edges: Edges, overLink: set<Name>, dictionary: set<Name>, oracleOwned: set<string>,
                             mine: string, a: Name)
    requires a.owner == mine && OwnChainEnds(edges, overLink, dictionary, a)
    ensures Reported(edges, overLink, dictionary, oracleOwned, mine, a)
  {
    var E := Hops(edges);
    if a in overLink {
      Here(E, a);
      assert a in Unprovable(edges, overLink);
    } else {
      var x :| Reaches(E, edges[a], x) && (x in dictionary || x in Unprovable(edges, overLink));
      assert (a, edges[a]) in E && edges[a] in edges.Values;
      Step(E, a, edges[a]);
      Through(E, a, edges[a], x);
      HopsStayInNodes(edges, edges[a], x);
      if x in dictionary {
        assert edges[a] in MineTargets(edges, mine);
        assert ReachedFrom(E, MineTargets(edges, mine), x);
        assert Counts(edges, dictionary, oracleOwned, mine, false, x);
      }
    }
  }

  /** Nothing invented: an alias that is reported has a chain to a function or to a name no local walk
      can settle. */
  lemma ReportsHaveAChain(edges: Edges, overLink: set<Name>, dictionary: set<Name>, oracleOwned: set<string>,
                          mine: string, a: Name)
    requires Reported(edges, overLink, dictionary, oracleOwned, mine, a)
    ensures HasChain(edges, overLink, dictionary, a)
  {
    var free := a.owner != mine || !Arrives(edges, overLink, dictionary, oracleOwned, mine, false, a);
    var x :| Reaches(Hops(edges), a, x) &&
             (x in Unprovable(edges, overLink) || Counts(edges, dictionary, oracleOwned, mine, free, x));
  }

  /** The PUBLIC arm is exact: such an alias is reported just when its chain ends outside Oracle's own
      schemas, or at a name no local walk can settle. PUBLIC owns synonyms and never functions. */
  lemma PublicArmIsExact(edges: Edges, overLink: set<Name>, dictionary: set<Name>, oracleOwned: set<string>,
                         mine: string, a: Name)
    requires a.owner == PUBLIC != mine && a in edges.Keys + overLink
    requires forall f :: f in dictionary ==> f.owner != PUBLIC
    ensures Reported(edges, overLink, dictionary, oracleOwned, mine, a) <==>
      exists x :: Reaches(Hops(edges), a, x) &&
                  ((x in dictionary && x.owner !in oracleOwned) || x in Unprovable(edges, overLink))
  {
    var E := Hops(edges);
    forall x | Reaches(E, a, x) && x in dictionary && x.owner !in oracleOwned
      ensures Counts(edges, dictionary, oracleOwned, mine, true, x)
    {
      var c := LastStep(E, a, x);
      assert x in edges.Values;
    }
  }
}
