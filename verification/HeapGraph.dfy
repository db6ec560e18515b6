/** Reference counts seen as a property of a graph: what it means for counts to be exact, for an
    object to be held from outside, and what removing objects does to both. */
module HeapGraph {
  import opened Graphs
  import opened Pigeonhole

  type Ref = nat
  type Graph = map<Ref, seq<Ref>>

  ghost function Only(g: Graph, s: set<Ref>): Graph {
    map x | x in g && x in s :: g[x]
  }

  /** How often each object is referred to by the objects of g. */
  ghost function Incoming(g: Graph): multiset<Ref>
    decreases |g|
  {
    if g == map[] then multiset{} else
      var x :| x in g;
      multiset(g[x]) + Incoming(g - {x})
  }

  lemma {:induction false} IncomingRemove(g: Graph, x: Ref)
    requires x in g
    ensures Incoming(g) == multiset(g[x]) + Incoming(g - {x})
    decreases |g|
  {
    var y :| y in g && Incoming(g) == multiset(g[y]) + Incoming(g - {y});
    if y != x {
      IncomingRemove(g - {y}, x);
      IncomingRemove(g - {x}, y);
      assert g - {y} - {x} == g - {x} - {y};
    }
  }

  lemma OnlyShrinks(g: Graph, s: set<Ref>, x: Ref)
    requires x in s
    ensures x in g ==> Only(g, s) - {x} == Only(g - {x}, s - {x}) && g - {x} - (s - {x}) == g - s
    ensures x !in g ==> Only(g, s) == Only(g, s - {x}) && g - (s - {x}) == g - s
  {
  }

  lemma {:induction false} IncomingSplit(g: Graph, s: set<Ref>)
    ensures Incoming(g) == Incoming(Only(g, s)) + Incoming(g - s)
    decreases |s|
  {
    if s == {} {
      assert Only(g, s) == map[];
      assert g - s == g;
    } else {
      var x :| x in s;
      OnlyShrinks(g, s, x);
      if x in g {
        IncomingSplit(g - {x}, s - {x});
        IncomingRemove(g, x);
        IncomingRemove(Only(g, s), x);
      } else {
        IncomingSplit(g, s - {x});
      }
    }
  }

  lemma {:induction false} IncomingMember(g: Graph, x: Ref)
    ensures x in Incoming(g) <==> exists y :: Edge(g, y, x)
    decreases |g|
  {
    if g != map[] {
      var y :| y in g && Incoming(g) == multiset(g[y]) + Incoming(g - {y});
      var h := g - {y};
      IncomingMember(h, x);
      if x in g[y] {
        assert Edge(g, y, x);
      } else if x in Incoming(h) {
        var z :| Edge(h, z, x);
        assert Edge(g, z, x);
      }
      if z :| Edge(g, z, x) {
        assert z == y || Edge(h, z, x);
      }
    }
  }

  /** The references of the objects of a list, with multiplicity. */
  ghost function EdgesOf(g: Graph, list: seq<Ref>): multiset<Ref>
    requires forall x :: x in list ==> x in g
  {
    if list == [] then multiset{} else EdgesOf(g, list[..|list| - 1]) + multiset(g[list[|list| - 1]])
  }

  lemma {:induction false} EdgesOfMember(g: Graph, list: seq<Ref>, x: Ref)
    requires forall y :: y in list ==> y in g
    requires x in EdgesOf(g, list)
    ensures exists k :: 0 <= k < |list| && x in g[list[k]]
  {
    var init, last := list[..|list| - 1], list[|list| - 1];
    if x in g[last] {
      assert x in g[list[|list| - 1]];
    } else {
      EdgesOfMember(g, init, x);
      var k :| 0 <= k < |init| && x in g[init[k]];
      assert x in g[list[k]];
    }
  }

  ghost function Elements(list: seq<Ref>): set<Ref> {
    set x | x in list
  }

  lemma OnlyWithoutLast(g: Graph, list: seq<Ref>)
    requires list != [] && AllDistinct(list)
    ensures Only(g, Elements(list)) - {list[|list| - 1]} == Only(g, Elements(list[..|list| - 1]))
  {
    var init, last := list[..|list| - 1], list[|list| - 1];
    assert list == init + [last];
    assert last !in init;
    assert Elements(list) == Elements(init) + {last};
  }

  lemma {:induction false} EdgesOfList(g: Graph, list: seq<Ref>)
    requires AllDistinct(list) && forall x :: x in list ==> x in g
    ensures EdgesOf(g, list) == Incoming(Only(g, Elements(list)))
  {
    if list == [] {
      assert Only(g, Elements(list)) == map[];
    } else {
      var init, last := list[..|list| - 1], list[|list| - 1];
      EdgesOfList(g, init);
      var h := Only(g, Elements(list));
      assert last in list;
      IncomingRemove(h, last);
      OnlyWithoutLast(g, list);
    }
  }

  /** x can be reached from some reference held outside the heap. */
  ghost predicate Held(g: Graph, outside: multiset<Ref>, x: Ref) {
    exists r :: r in outside && Reaches(g, r, x)
  }

  ghost predicate AllHeld(g: Graph, outside: multiset<Ref>) {
    forall x :: x in g ==> Held(g, outside, x)
  }

  /** Every count is the number of references from the heap plus those held outside. */
  ghost predicate Exact(g: Graph, count: map<Ref, int>, outside: multiset<Ref>) {
    var m := Incoming(g) + outside;
    && (forall x :: x in m ==> x in g)
    && (forall x :: x in g ==> x in count && count[x] == m[x])
  }

  /** The objects that reach p and are reached from it. */
  ghost function Component(g: Graph, p: Ref): set<Ref> {
    set x | x in g && Reaches(g, p, x) && Reaches(g, x, p)
  }

  /** No reference to a member of c comes from outside c. */
  ghost predicate Enclosed(g: Graph, outside: multiset<Ref>, c: set<Ref>) {
    forall x :: x in c ==> x !in Incoming(g - c) + outside
  }

  lemma ExactStaysInside(g: Graph, count: map<Ref, int>, outside: multiset<Ref>)
    requires Exact(g, count, outside)
    ensures Closed(g, g.Keys)
  {
    forall a, b | a in g.Keys && Edge(g, a, b)
      ensures b in g.Keys
    {
      IncomingMember(g, b);
      assert b in Incoming(g) + outside;
    }
  }

  lemma HeldRoot(g: Graph, outside: multiset<Ref>, r: Ref)
    requires r in outside
    ensures Held(g, outside, r)
  {
    ReachesSelf(g, r);
  }

  lemma HeldNext(g: Graph, outside: multiset<Ref>, a: Ref, b: Ref)
    requires Held(g, outside, a) && Edge(g, a, b)
    ensures Held(g, outside, b)
  {
    var r :| r in outside && Reaches(g, r, a);
    ReachesLast(g, r, a, b);
  }

  lemma HeldMonotone(g: Graph, h: Graph, outside: multiset<Ref>, more: multiset<Ref>, x: Ref)
    requires SubGraph(g, h) && Held(g, outside, x)
    requires forall r :: r in outside ==> r in more
    ensures Held(h, more, x)
  {
    var r :| r in outside && Reaches(g, r, x);
    ReachesMonotone(g, h, r, x);
  }

  /** What is held stays held when only objects that are not held go away. */
  lemma HeldPersists(g: Graph, h: Graph, outside: multiset<Ref>)
    requires Closed(g, g.Keys) && forall r :: r in outside ==> r in g
    requires forall x :: x in h ==> x in g && h[x] == g[x]
    requires forall x :: x in g && Held(g, outside, x) ==> x in h
    ensures forall x :: x in g && Held(g, outside, x) ==> Held(h, outside, x)
  {
    var s := set x | x in g && Held(h, outside, x);
    assert Closed(g, s) by {
      forall a, b | a in s && Edge(g, a, b)
        ensures b in s
      {
        HeldMonotone(h, g, outside, outside, a);
        assert Edge(h, a, b);
        HeldNext(h, outside, a, b);
      }
    }
    forall x | x in g && Held(g, outside, x)
      ensures Held(h, outside, x)
    {
      var r :| r in outside && Reaches(g, r, x);
      HeldRoot(h, outside, r);
      ClosedContains(g, s, r, x);
    }
  }

  /** Dropping one holder of p changes nothing while p is held otherwise. */
  lemma DropKeepsHeld(g: Graph, outside: multiset<Ref>, p: Ref)
    requires AllHeld(g, outside + multiset{p}) && Held(g, outside, p)
    ensures AllHeld(g, outside)
  {
    var q :| q in outside && Reaches(g, q, p);
    forall x | x in g
      ensures Held(g, outside, x)
    {
      var r :| r in outside + multiset{p} && Reaches(g, r, x);
      if r !in outside {
        ReachesTransitive(g, q, p, x);
      }
    }
  }

  /** Removing c, and counting the references that leave c as held outside, leaves the rest held. */
  lemma RemoveKeepsHeld(g: Graph, c: set<Ref>, p: Ref, outside: multiset<Ref>, after: multiset<Ref>)
    requires p in c && c <= g.Keys && Closed(g, g.Keys)
    requires forall r :: r in outside ==> r in g
    requires AllHeld(g, outside + multiset{p})
    requires forall r :: r in outside && r !in c ==> r in after
    requires forall a, b :: a in c && Edge(g, a, b) && b !in c ==> b in after
    ensures AllHeld(g - c, after)
  {
    var h := g - c;
    var s := c + set x | x in g && Held(h, after, x);
    assert Closed(g, s) by {
      forall a, b | a in s && Edge(g, a, b)
        ensures b in s
      {
        if b !in c {
          if a in c {
            HeldRoot(h, after, b);
          } else {
            assert Edge(h, a, b);
            HeldNext(h, after, a, b);
          }
        }
      }
    }
    forall x | x in h
      ensures Held(h, after, x)
    {
      var r :| r in outside + multiset{p} && Reaches(g, r, x);
      if r !in c {
        HeldRoot(h, after, r);
      }
      ClosedContains(g, s, r, x);
    }
  }

  /** A component entered from outside itself is still held after p lost one holder. */
  lemma EnteredIsHeld(g: Graph, outside: multiset<Ref>, p: Ref, x: Ref)
    requires AllHeld(g, outside + multiset{p})
    requires x in Component(g, p) && x in Incoming(g - Component(g, p)) + outside
    ensures Held(g, outside, p)
  {
    var c := Component(g, p);
    if x !in outside {
      IncomingMember(g - c, x);
      var y :| Edge(g - c, y, x);
      assert Edge(g, y, x);
      ReachesFirst(g, y, x, p);
      var r :| r in outside + multiset{p} && Reaches(g, r, y);
      assert r in outside;
      ReachesTransitive(g, r, y, p);
    }
  }
}
