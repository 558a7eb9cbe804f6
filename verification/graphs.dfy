/** Paths in a directed graph given by its set of edges. */
module Graphs {

  ghost predicate Walk<T>(E: set<(T, T)>, p: seq<T>) {
    p != [] && forall i :: 0 <= i < |p| - 1 ==> (p[i], p[i + 1]) in E
  }

  ghost predicate Reaches<T(!new)>(E: set<(T, T)>, a: T, b: T) {
    exists p :: Walk(E, p) && p[0] == a && p[|p| - 1] == b
  }

  ghost predicate Closed<T(!new)>(E: set<(T, T)>, S: set<T>) {
    forall a, b :: (a, b) in E && a in S ==> b in S
  }

  ghost predicate Acyclic<T(!new)>(E: set<(T, T)>) {
    forall a, b :: (a, b) in E ==> !Reaches(E, b, a)
  }

  function Flip<T(==)>(E: set<(T, T)>): set<(T, T)> {
    set e | e in E :: (e.1, e.0)
  }

  lemma Here<T(!new)>(E: set<(T, T)>, a: T)
    ensures Reaches(E, a, a)
  {
    assert Walk(E, [a]);
  }

  lemma Through<T(!new)>(E: set<(T, T)>, a: T, b: T, c: T)
    requires Reaches(E, a, b) && Reaches(E, b, c)
    ensures Reaches(E, a, c)
  {
    var p :| Walk(E, p) && p[0] == a && p[|p| - 1] == b;
    var q :| Walk(E, q) && q[0] == b && q[|q| - 1] == c;
    var r := p + q[1..];
    assert Walk(E, r) by {
      forall i | 0 <= i < |r| - 1 ensures (r[i], r[i + 1]) in E {
        if i >= |p| - 1 { assert r[i] == q[i - |p| + 1] && r[i + 1] == q[i - |p| + 2]; }
      }
    }
    assert r[|r| - 1] == c;
  }

  lemma Step<T(!new)>(E: set<(T, T)>, a: T, b: T)
    requires (a, b) in E
    ensures Reaches(E, a, b)
  {
    assert Walk(E, [a, b]);
  }

  /** A path that moves at all takes a first edge. */
  lemma FirstStep<T(!new)>(E: set<(T, T)>, a: T, b: T) returns (c: T)
    requires Reaches(E, a, b) && a != b
    ensures (a, c) in E && Reaches(E, c, b)
  {
    var p :| Walk(E, p) && p[0] == a && p[|p| - 1] == b;
    c := p[1];
    assert Walk(E, p[1..]);
  }

  lemma LastStep<T(!new)>(E: set<(T, T)>, a: T, b: T) returns (c: T)
    requires Reaches(E, a, b) && a != b
    ensures (c, b) in E && Reaches(E, a, c)
  {
    var p :| Walk(E, p) && p[0] == a && p[|p| - 1] == b;
    c := p[|p| - 2];
    assert (p[|p| - 2], p[|p| - 2 + 1]) in E;
    assert Walk(E, p[..|p| - 1]);
  }

  lemma Mono<T(!new)>(E: set<(T, T)>, F: set<(T, T)>, a: T, b: T)
    requires E <= F && Reaches(E, a, b)
    ensures Reaches(F, a, b)
  {
    var p :| Walk(E, p) && p[0] == a && p[|p| - 1] == b;
    assert Walk(F, p);
  }

  /** Nothing leaves a closed set. */
  lemma StaysInside<T(!new)>(E: set<(T, T)>, S: set<T>, a: T, b: T)
    requires Closed(E, S) && a in S && Reaches(E, a, b)
    ensures b in S
  {
    var p :| Walk(E, p) && p[0] == a && p[|p| - 1] == b;
    var i := 0;
    while i < |p| - 1
      invariant 0 <= i <= |p| - 1 && p[i] in S
    {
      assert (p[i], p[i + 1]) in E;
      i := i + 1;
    }
  }

  lemma FlipReaches<T(!new)>(E: set<(T, T)>, a: T, b: T)
    requires Reaches(E, a, b)
    ensures Reaches(Flip(E), b, a)
  {
    var p :| Walk(E, p) && p[0] == a && p[|p| - 1] == b;
    var q := seq(|p|, i requires 0 <= i < |p| => p[|p| - 1 - i]);
    forall i | 0 <= i < |q| - 1 ensures (q[i], q[i + 1]) in Flip(E) {
      var j := |p| - 2 - i;
      assert (p[j], p[j + 1]) in E;
    }
    assert Walk(Flip(E), q);
  }

  lemma FlipTwice<T>(E: set<(T, T)>)
    ensures Flip(Flip(E)) == E
  {
    forall e | e in E ensures e in Flip(Flip(E)) { assert (e.1, e.0) in Flip(E); }
  }

  /** A path through a graph with one more edge either avoids the edge or can be cut around it. */
  lemma AddEdge<T(!new)>(E: set<(T, T)>, u: T, v: T, a: T, b: T)
    requires Reaches(E + {(u, v)}, a, b)
    ensures Reaches(E, a, b) || (Reaches(E, a, u) && Reaches(E, v, b))
  {
    var F := E + {(u, v)};
    var p :| Walk(F, p) && p[0] == a && p[|p| - 1] == b;
    AddEdgeWalk(E, u, v, p);
  }

  lemma {:induction false} AddEdgeWalk<T(!new)>(E: set<(T, T)>, u: T, v: T, p: seq<T>)
    requires Walk(E + {(u, v)}, p)
    ensures Reaches(E, p[0], p[|p| - 1]) || (Reaches(E, p[0], u) && Reaches(E, v, p[|p| - 1]))
  {
    var F := E + {(u, v)};
    if |p| == 1 {
      Here(E, p[0]);
    } else {
      var t := p[1..];
      forall i | 0 <= i < |t| - 1 ensures (t[i], t[i + 1]) in F {
        assert t[i] == p[i + 1] && t[i + 1] == p[i + 1 + 1];
      }
      AddEdgeWalk(E, u, v, t);
      assert (p[0], p[0 + 1]) in F;
      if (p[0], p[1]) in E {
        Step(E, p[0], p[1]);
        if Reaches(E, p[1], p[|p| - 1]) {
          Through(E, p[0], p[1], p[|p| - 1]);
        } else {
          Through(E, p[0], p[1], u);
        }
      } else {
        Here(E, u);
      }
    }
  }

  /** An edge whose head cannot reach its tail keeps an acyclic graph acyclic. */
  lemma AddAcyclic<T(!new)>(E: set<(T, T)>, u: T, v: T)
    requires Acyclic(E) && !Reaches(E, v, u)
    ensures Acyclic(E + {(u, v)})
  {
    var F := E + {(u, v)};
    forall a, b | (a, b) in F ensures !Reaches(F, b, a) {
      if Reaches(F, b, a) {
        AddEdge(E, u, v, b, a);
        if (a, b) in E {
          if !Reaches(E, b, a) {
            Step(E, a, b);
            Through(E, v, a, b);
            Through(E, v, b, u);
          }
        }
      }
    }
  }

  // ----- undirected graphs -----

  /** Joined by edges taken in either direction: the equivalence the edges generate. */
  ghost predicate Linked<T(!new)>(E: set<(T, T)>, a: T, b: T) {
    Reaches(E + Flip(E), a, b)
  }

  lemma LinkedSymmetric<T(!new)>(E: set<(T, T)>, a: T, b: T)
    requires Linked(E, a, b)
    ensures Linked(E, b, a)
  {
    var F := E + Flip(E);
    FlipReaches(F, a, b);
    FlipTwice(E);
    assert Flip(F) == F by {
      forall e | e in F ensures e in Flip(F) { assert (e.1, e.0) in F; }
    }
  }

  lemma LinkedTrans<T(!new)>(E: set<(T, T)>, a: T, b: T, c: T)
    requires Linked(E, a, b) && Linked(E, b, c)
    ensures Linked(E, a, c)
  {
    Through(E + Flip(E), a, b, c);
  }

  /** Adding an edge links exactly what was linked, and the two classes it joins. */
  lemma LinkedAfterAdding<T(!new)>(E: set<(T, T)>, u: T, v: T, a: T, b: T)
    ensures Linked(E + {(u, v)}, a, b) <==>
            Linked(E, a, b) || (Linked(E, a, u) && Linked(E, v, b)) || (Linked(E, a, v) && Linked(E, u, b))
  {
    var S := E + Flip(E);
    var F := E + {(u, v)};
    assert F + Flip(F) == (S + {(u, v)}) + {(v, u)} by {
      assert (v, u) in Flip(F);
      forall e | e in Flip(E) ensures e in Flip(F) { assert (e.1, e.0) in E; }
      forall e | e in Flip(F) ensures e in S + {(v, u)} {
        if (e.1, e.0) in E { assert e in Flip(E); }
      }
    }
    if Linked(F, a, b) {
      AddEdge(S + {(u, v)}, v, u, a, b);
      if Reaches(S + {(u, v)}, a, b) {
        AddEdge(S, u, v, a, b);
      } else {
        AddEdge(S, u, v, a, v);
        AddEdge(S, u, v, u, b);
        if Linked(E, a, v) && Linked(E, v, b) { LinkedTrans(E, a, v, b); }
        if Linked(E, a, u) && Linked(E, u, b) { LinkedTrans(E, a, u, b); }
      }
    }
    if Linked(E, a, b) { Mono(S, F + Flip(F), a, b); }
    if Linked(E, a, u) && Linked(E, v, b) {
      Mono(S, F + Flip(F), a, u);
      Mono(S, F + Flip(F), v, b);
      Step(F + Flip(F), u, v);
      LinkedTrans(F, a, u, v);
      LinkedTrans(F, a, v, b);
    }
    if Linked(E, a, v) && Linked(E, u, b) {
      Mono(S, F + Flip(F), a, v);
      Mono(S, F + Flip(F), u, b);
      Step(F + Flip(F), v, u);
      LinkedTrans(F, a, v, u);
      LinkedTrans(F, a, u, b);
    }
  }
}
