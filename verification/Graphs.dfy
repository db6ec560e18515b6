/** Finite directed graphs given by successor lists, and reachability in them.
    A node without an entry has no successors. */
module Graphs {

  ghost predicate Edge<N>(g: map<N, seq<N>>, a: N, b: N) {
    a in g && b in g[a]
  }

  ghost predicate IsPath<N>(g: map<N, seq<N>>, p: seq<N>) {
    p != [] && forall i :: 0 <= i < |p| - 1 ==> Edge(g, p[i], p[i + 1])
  }

  ghost predicate Connects<N>(g: map<N, seq<N>>, p: seq<N>, a: N, b: N) {
    IsPath(g, p) && p[0] == a && p[|p| - 1] == b
  }

  ghost predicate Reaches<N(!new)>(g: map<N, seq<N>>, a: N, b: N) {
    exists p :: Connects(g, p, a, b)
  }

  /** The set s has no edge leaving it. */
  ghost predicate Closed<N(!new)>(g: map<N, seq<N>>, s: set<N>) {
    forall a, b :: a in s && Edge(g, a, b) ==> b in s
  }

  /** The set s has no edge entering it. */
  ghost predicate BackClosed<N(!new)>(g: map<N, seq<N>>, s: set<N>) {
    forall a, b :: b in s && Edge(g, a, b) ==> a in s
  }

  lemma ReachesSelf<N(!new)>(g: map<N, seq<N>>, a: N)
    ensures Reaches(g, a, a)
  {
    assert Connects(g, [a], a, a);
  }

  lemma ReachesFirst<N(!new)>(g: map<N, seq<N>>, a: N, b: N, c: N)
    requires Edge(g, a, b) && Reaches(g, b, c)
    ensures Reaches(g, a, c)
  {
    var p :| Connects(g, p, b, c);
    assert Connects(g, [a] + p, a, c);
  }

  lemma ReachesLast<N(!new)>(g: map<N, seq<N>>, a: N, b: N, c: N)
    requires Reaches(g, a, b) && Edge(g, b, c)
    ensures Reaches(g, a, c)
  {
    var p :| Connects(g, p, a, b);
    assert Connects(g, p + [c], a, c);
  }

  lemma {:induction false} PathStaysInside<N(!new)>(g: map<N, seq<N>>, s: set<N>, p: seq<N>, i: nat)
    requires IsPath(g, p) && i < |p|
    requires p[0] in s && Closed(g, s)
    ensures p[i] in s
  {
    if i > 0 {
      PathStaysInside(g, s, p, i - 1);
      assert Edge(g, p[i - 1], p[i - 1 + 1]);
    }
  }

  lemma {:induction false} PathCameFromInside<N(!new)>(g: map<N, seq<N>>, s: set<N>, p: seq<N>, i: nat)
    requires IsPath(g, p) && i < |p|
    requires p[|p| - 1] in s && BackClosed(g, s)
    ensures p[i] in s
    decreases |p| - i
  {
    if i < |p| - 1 {
      PathCameFromInside(g, s, p, i + 1);
      assert Edge(g, p[i], p[i + 1]);
    }
  }

  lemma ClosedContains<N(!new)>(g: map<N, seq<N>>, s: set<N>, a: N, b: N)
    requires a in s && Closed(g, s) && Reaches(g, a, b)
    ensures b in s
  {
    var p :| Connects(g, p, a, b);
    PathStaysInside(g, s, p, |p| - 1);
  }

  lemma BackClosedContains<N(!new)>(g: map<N, seq<N>>, s: set<N>, a: N, b: N)
    requires b in s && BackClosed(g, s) && Reaches(g, a, b)
    ensures a in s
  {
    var p :| Connects(g, p, a, b);
    PathCameFromInside(g, s, p, 0);
  }

  lemma ReachesTransitive<N(!new)>(g: map<N, seq<N>>, a: N, b: N, c: N)
    requires Reaches(g, a, b) && Reaches(g, b, c)
    ensures Reaches(g, a, c)
  {
    var p :| Connects(g, p, a, b);
    var q :| Connects(g, q, b, c);
    var r := p + q[1..];
    forall i | 0 <= i < |r| - 1
      ensures Edge(g, r[i], r[i + 1])
    {
      if i < |p| - 1 {
        assert Edge(g, p[i], p[i + 1]);
      } else {
        assert Edge(g, q[i - |p| + 1], q[i - |p| + 1 + 1]);
      }
    }
    assert Connects(g, r, a, c);
  }

  /** Every edge of g is an edge of h. */
  ghost predicate SubGraph<N(!new)>(g: map<N, seq<N>>, h: map<N, seq<N>>) {
    forall a, b :: Edge(g, a, b) ==> Edge(h, a, b)
  }

  lemma ReachesMonotone<N(!new)>(g: map<N, seq<N>>, h: map<N, seq<N>>, a: N, b: N)
    requires SubGraph(g, h) && Reaches(g, a, b)
    ensures Reaches(h, a, b)
  {
    var p :| Connects(g, p, a, b);
    forall i | 0 <= i < |p| - 1
      ensures Edge(h, p[i], p[i + 1])
    {
      assert Edge(g, p[i], p[i + 1]);
    }
    assert Connects(h, p, a, b);
  }

  /** A property of the last node of a path that edges carry backwards holds of the first node. */
  lemma {:induction false} PathBackwards<N(!new)>(g: map<N, seq<N>>, s: iset<N>, p: seq<N>, i: nat)
    requires IsPath(g, p) && i < |p| && p[|p| - 1] in s
    requires forall a, b :: b in s && Edge(g, a, b) ==> a in s
    ensures p[i] in s
    decreases |p| - i
  {
    if i < |p| - 1 {
      PathBackwards(g, s, p, i + 1);
      assert Edge(g, p[i], p[i + 1]);
    }
  }

  lemma ReachesBackwards<N(!new)>(g: map<N, seq<N>>, s: iset<N>, a: N, b: N)
    requires b in s && Reaches(g, a, b)
    requires forall x, y :: y in s && Edge(g, x, y) ==> x in s
    ensures a in s
  {
    var p :| Connects(g, p, a, b);
    PathBackwards(g, s, p, 0);
  }

  lemma LastEdge<N(!new)>(g: map<N, seq<N>>, a: N, b: N) returns (y: N)
    requires Reaches(g, a, b) && a != b
    ensures Reaches(g, a, y) && Edge(g, y, b)
  {
    var p :| Connects(g, p, a, b);
    var q := p[..|p| - 1];
    y := q[|q| - 1];
    assert Connects(g, q, a, y) by {
      forall i | 0 <= i < |q| - 1
        ensures Edge(g, q[i], q[i + 1])
      {
        assert Edge(g, p[i], p[i + 1]);
      }
    }
    assert Edge(g, p[|p| - 2], p[|p| - 2 + 1]);
  }
}
