/** The hops of the function walk are those of Oracle's own resolution, on names folded to lower case. */
module SynonymResolution {
  import opened Characters
  import opened Graphs
  import opened Options
  import opened OracleNames
  import opened NameResolution
  import SynonymReach

  function Fold(n: Name): Name { Name(Lower(n.owner), Lower(n.name)) }

  /** Where resolving the name ends within `n` hops, if it ends at an object and crosses no link. */
  ghost function EndsAt(d: Dictionary, at: Name, n: nat): Option<Name>
    decreases n
  {
    if n == 0 then None
    else
      match Resolve(d, at)
      case Ends => Some(at)
      case Goes(to) => EndsAt(d, to, n - 1)
      case _ => None
  }

  /** The edges read are the dictionary's local synonyms, and PUBLIC owns no objects. */
  ghost predicate ReadFrom(edges: SynonymReach.Edges, d: Dictionary) {
    (forall a :: a in d.synonyms && !d.synonyms[a].overLink ==>
       Fold(a) in edges && edges[Fold(a)] == Fold(TargetOf(a, d.synonyms[a]))) &&
    forall o :: o in d.objects ==> o.owner != PUBLIC
  }

  lemma PublicFolds(at: Name)
    ensures Fold(Name(PUBLIC, at.name)) == SynonymReach.Public(Fold(at))
  {
    assert Lower("PUBLIC") == "public";
  }

  /** Whatever Oracle's resolution arrives at, the PUBLIC fallback included, the walk's hops lead to. */
  lemma {:induction false} ResolutionFollowsHops(d: Dictionary, edges: SynonymReach.Edges, at: Name, n: nat)
    requires ReadFrom(edges, d) && Fold(at) in SynonymReach.Nodes(edges) && EndsAt(d, at, n).Some?
    ensures Reaches(SynonymReach.Hops(edges), Fold(at), Fold(EndsAt(d, at, n).value))
    decreases n
  {
    var E := SynonymReach.Hops(edges);
    match Resolve(d, at)
    case Ends => Here(E, Fold(at));
    case Goes(to) =>
      if at in d.synonyms {
        OneHop(d, edges, at, Fold(at));
        ResolutionFollowsHops(d, edges, to, n - 1);
        Through(E, Fold(at), Fold(to), Fold(EndsAt(d, at, n).value));
      } else {
        PublicFolds(at);
        assert Resolve(d, to).Goes?;
        var next := Resolve(d, to).to;
        OneHop(d, edges, to, Fold(at));
        ResolutionFollowsHops(d, edges, next, n - 2);
        Through(E, Fold(at), Fold(next), Fold(EndsAt(d, at, n).value));
      }
    case _ =>
  }

  /** A synonym's edge is a hop from it, and, for a PUBLIC one, from any node of its name. */
  lemma OneHop(d: Dictionary, edges: SynonymReach.Edges, a: Name, at: Name)
    requires ReadFrom(edges, d) && a in d.synonyms && !d.synonyms[a].overLink && at in SynonymReach.Nodes(edges)
    requires at == Fold(a) || Fold(a) == SynonymReach.Public(at)
    ensures var to := Fold(TargetOf(a, d.synonyms[a]));
            to in SynonymReach.Nodes(edges) && Reaches(SynonymReach.Hops(edges), at, to)
  {
    var to := Fold(TargetOf(a, d.synonyms[a]));
    assert edges[Fold(a)] == to && to in edges.Values;
    assert (at, to) in SynonymReach.Hops(edges);
    Step(SynonymReach.Hops(edges), at, to);
  }

  /** The link aliases read are the dictionary's synonyms over a link. */
  ghost predicate LinksFrom(overLink: set<Name>, d: Dictionary) {
    forall a :: a in d.synonyms && d.synonyms[a].overLink ==> Fold(a) in overLink
  }

  /** Whatever resolves over a link, the walk takes for a name it cannot settle. */
  lemma {:induction false} CrossingIsUnprovable(d: Dictionary, edges: SynonymReach.Edges, overLink: set<Name>, at: Name,
                                                n: nat)
    requires ReadFrom(edges, d) && LinksFrom(overLink, d)
    requires Fold(at) in SynonymReach.Nodes(edges) && CrossesWithin(d, at, n)
    ensures exists x :: Reaches(SynonymReach.Hops(edges), Fold(at), x) && x in SynonymReach.Unprovable(edges, overLink)
    decreases n
  {
    var E := SynonymReach.Hops(edges);
    match Resolve(d, at)
    case Crosses => Here(E, Fold(at));
    case Goes(to) =>
      PublicFolds(at);
      if at !in d.synonyms && Resolve(d, to).Crosses? {
        Here(E, Fold(at));
      } else {
        var a := if at in d.synonyms then at else to;
        var next := Resolve(d, a).to;
        OneHop(d, edges, a, Fold(at));
        CrossingIsUnprovable(d, edges, overLink, next, if at in d.synonyms then n - 1 else n - 2);
        var x :| Reaches(E, Fold(next), x) && x in SynonymReach.Unprovable(edges, overLink);
        Through(E, Fold(at), Fold(next), x);
      }
    case _ =>
  }
}
