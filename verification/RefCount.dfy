/** Adding and releasing references (minimal/src/refcount.c), with the collection of cycles that a
    release can set off (minimal/src/cyclic_garbage.c). */
module RefCount {
  import opened Graphs
  import opened Pigeonhole
  import opened HeapGraph
  import opened CyclicGarbage
  import opened Options

  lemma FrameTransitive(o0: map<Ref, Body>, c0: map<Ref, int>, o1: map<Ref, Body>, c1: map<Ref, int>,
                        o2: map<Ref, Body>, c2: map<Ref, int>)
    requires Frame(o0, c0, o1, c1) && Frame(o1, c1, o2, c2)
    ensures Frame(o0, c0, o2, c2)
  {
  }

  lemma FrameShrinks(o0: map<Ref, Body>, c0: map<Ref, int>, o1: map<Ref, Body>, c1: map<Ref, int>)
    requires Frame(o0, c0, o1, c1)
    ensures forall x :: x in LiveGraph(o1, c1) ==> x in LiveGraph(o0, c0) && LiveGraph(o1, c1)[x] == LiveGraph(o0, c0)[x]
    ensures |LiveGraph(o1, c1)| <= |LiveGraph(o0, c0)|
  {
    var g0, g1 := LiveGraph(o0, c0), LiveGraph(o1, c1);
    assert g1.Keys <= g0.Keys;
    SubsetSize(g1.Keys, g0.Keys);
  }

  lemma SafeChain(g0: Graph, g1: Graph, g2: Graph, base: multiset<Ref>, more: multiset<Ref>)
    requires Closed(g0, g0.Keys) && (forall r :: r in base ==> r in g0) && base <= more
    requires forall x :: x in g1 ==> x in g0 && g1[x] == g0[x]
    requires Safe(g0, g1, base) && Safe(g1, g2, more)
    ensures Safe(g0, g2, base)
  {
    HeldPersists(g0, g1, base);
    forall x | x in g0 && Held(g0, base, x)
      ensures x in g2
    {
      HeldMonotone(g1, g1, base, more, x);
    }
  }

  lemma {:induction false} KeepAll(s: seq<Ref>, d: set<Ref>)
    requires forall x :: x in s ==> x !in d
    ensures Keep(s, d) == s
  {
    if s != [] {
      KeepAll(s[1..], d);
    }
  }

  /** One of several references to p is dropped. */
  lemma SharedReferenceDropped(g: Graph, count: map<Ref, int>, outside: multiset<Ref>, p: Ref)
    requires Exact(g, count, outside) && p in outside && p in g && count[p] > 1
    ensures Exact(g, count[p := count[p] - 1], outside - multiset{p})
  {
  }

  /** The only reference to p is dropped: p leaves the graph and its own references are left over. */
  lemma LastReferenceDropped(g: Graph, count: map<Ref, int>, outside: multiset<Ref>, p: Ref)
    requires Exact(g, count, outside) && p in outside && p in g && count[p] == 1
    ensures Exact(g - {p}, count[p := 0], outside - multiset{p} + multiset(g[p]))
    ensures p !in outside - multiset{p} + multiset(g[p])
  {
    IncomingRemove(g, p);
    var m, m' := Incoming(g) + outside, Incoming(g - {p}) + (outside - multiset{p} + multiset(g[p]));
    assert forall x :: m'[x] == if x == p then m[x] - 1 else m[x];
  }

  lemma LastHolderSafe(g: Graph, outside: multiset<Ref>, p: Ref)
    requires p !in outside && p !in Incoming(g)
    ensures Safe(g, g - {p}, outside)
  {
    if Held(g, outside, p) {
      var r :| r in outside && Reaches(g, r, p);
      IncomingMember(g, p);
      assert BackClosed(g, {p});
      BackClosedContains(g, {p}, r, p);
    }
  }

  lemma OutgoingSplit(g: Graph, a: Ref, rest: set<Ref>)
    requires a in g && a !in rest
    ensures Incoming(Only(g, rest + {a})) == multiset(g[a]) + Incoming(Only(g, rest))
  {
    var h := Only(g, rest + {a});
    IncomingRemove(h, a);
    assert h - {a} == Only(g, rest);
  }

  lemma OwedFirst(obj: map<Ref, Body>, list: seq<Ref>, chosen: seq<bool>, d: set<Ref>)
    requires |list| == |chosen| && list != []
    requires forall x :: x in list ==> x in obj
    ensures chosen[0] ==> Owed(obj, list, chosen, d) == multiset(Keep(Releases(obj[list[0]]), d)) + Owed(obj, list[1..], chosen[1..], d)
    ensures !chosen[0] ==> Owed(obj, list, chosen, d) == Owed(obj, list[1..], chosen[1..], d)
  {
  }

  /** What the chosen objects owe is what their clique refers to outside d. */
  lemma {:induction false} OwedIsOutgoing(obj: map<Ref, Body>, g: Graph, list: seq<Ref>, chosen: seq<bool>, d: set<Ref>)
    requires |list| == |chosen| && AllDistinct(list)
    requires forall x :: x in list ==> x in obj && x in g && g[x] == References(obj[x])
    ensures AgreesOutside(Owed(obj, list, chosen, d), Incoming(Only(g, ChosenOf(list, chosen))), d)
  {
    if list == [] {
      assert Only(g, ChosenOf(list, chosen)) == map[];
      assert Owed(obj, list, chosen, d) == multiset{};
      assert Incoming(map[]) == multiset{};
      assert AgreesOutside(multiset{}, multiset{}, d);
    } else {
      var a, rest := list[0], ChosenOf(list[1..], chosen[1..]);
      var kept, tail := multiset(Keep(Releases(obj[a]), d)), Owed(obj, list[1..], chosen[1..], d);
      OwedFirst(obj, list, chosen, d);
      OwedIsOutgoing(obj, g, list[1..], chosen[1..], d);
      ChosenSplit(list, chosen);
      OutgoingSplit(g, a, rest);
      KeepCounts(Releases(obj[a]), d);
      ReleasesWhatItWalks(obj[a]);
      SumOutside(kept, multiset(g[a]), tail, Incoming(Only(g, rest)), d);
      if chosen[0] {
        assert ChosenOf(list, chosen) == rest + {a};
        assert AgreesOutside(kept + tail, Incoming(Only(g, rest + {a})), d);
        assert Owed(obj, list, chosen, d) == kept + tail;
      } else {
        assert ChosenOf(list, chosen) == rest;
        assert Owed(obj, list, chosen, d) == tail;
        assert AgreesOutside(tail, Incoming(Only(g, rest)), d);
      }
    }
  }

  ghost predicate AgreesOutside(part: multiset<Ref>, whole: multiset<Ref>, d: set<Ref>) {
    forall x :: part[x] == if x in d then 0 else whole[x]
  }

  lemma SumOutside(a: multiset<Ref>, b: multiset<Ref>, a': multiset<Ref>, b': multiset<Ref>, d: set<Ref>)
    requires AgreesOutside(a, b, d) && AgreesOutside(a', b', d)
    ensures AgreesOutside(a + a', b + b', d)
  {
  }

  lemma ChosenSplit(list: seq<Ref>, chosen: seq<bool>)
    requires |list| == |chosen| && list != [] && AllDistinct(list)
    ensures ChosenOf(list, chosen) == ChosenOf(list[1..], chosen[1..]) + (if chosen[0] then {list[0]} else {})
    ensures list[0] !in ChosenOf(list[1..], chosen[1..])
  {
    var rest := ChosenOf(list[1..], chosen[1..]);
    forall x | x in ChosenOf(list, chosen)
      ensures x in rest + (if chosen[0] then {list[0]} else {})
    {
      var k :| 0 <= k < |list| && chosen[k] && list[k] == x;
      if k > 0 {
        assert list[1..][k - 1] == x && chosen[1..][k - 1];
      }
    }
    forall x | x in rest
      ensures x in ChosenOf(list, chosen)
    {
      var k :| 0 <= k < |list| - 1 && chosen[1..][k] && list[1..][k] == x;
      assert list[k + 1] == x && chosen[k + 1];
    }
  }

  /** Removing an enclosed set keeps the counts exact once what it owes is held outside. */
  lemma CondemnedExact(g: Graph, count: map<Ref, int>, outside: multiset<Ref>, c: set<Ref>, count': map<Ref, int>,
                       owed: multiset<Ref>)
    requires Exact(g, count, outside) && c <= g.Keys && Enclosed(g, outside, c)
    requires forall x :: x in g && x !in c ==> x in count' && count'[x] == count[x]
    requires forall x :: x in c ==> owed[x] == 0
    requires forall x :: x !in c ==> owed[x] == Incoming(Only(g, c))[x]
    ensures Exact(g - c, count', outside + owed)
  {
    IncomingSplit(g, c);
    var m, m' := Incoming(g) + outside, Incoming(g - c) + (outside + owed);
    assert forall x :: x !in c ==> m'[x] == m[x];
    assert forall x :: x in c ==> m'[x] == 0;
  }

  /** No member of an enclosed component is held. */
  lemma EnclosedNotHeld(g: Graph, outside: multiset<Ref>, c: set<Ref>)
    requires Enclosed(g, outside, c) && c <= g.Keys
    ensures Safe(g, g - c, outside)
  {
    forall x | x in g && Held(g, outside, x)
      ensures x in g - c
    {
      var r :| r in outside && Reaches(g, r, x);
      if x in c {
        assert BackClosed(g, c) by {
          forall a, b | b in c && Edge(g, a, b)
            ensures a in c
          {
            if a !in c {
              assert Edge(g - c, a, b);
              IncomingMember(g - c, b);
            }
          }
        }
        BackClosedContains(g, c, r, x);
      }
    }
  }

  /** A component that is not enclosed leaves its root held, so nothing has to go. */
  lemma NotEnclosedKeepsAll(g: Graph, outside: multiset<Ref>, p: Ref)
    requires !Enclosed(g, outside, Component(g, p))
    ensures AllHeld(g, outside + multiset{p}) ==> AllHeld(g, outside)
  {
    if AllHeld(g, outside + multiset{p}) {
      var x :| x in Component(g, p) && x in Incoming(g - Component(g, p)) + outside;
      EnteredIsHeld(g, outside, p, x);
      DropKeepsHeld(g, outside, p);
    }
  }

  /** The counts after every member of c was marked. */
  ghost predicate Marked(count: map<Ref, int>, c: set<Ref>, count': map<Ref, int>) {
    && count'.Keys == count.Keys
    && forall x :: x in count ==> count'[x] == if x in c then -1 else count[x]
  }

  /** Marking an enclosed clique takes it out of the live graph and leaves the other counts exact. */
  lemma MarkedExact(obj: map<Ref, Body>, count: map<Ref, int>, outside: multiset<Ref>, ptr: seq<Ref>, inClique: seq<bool>,
                    c: set<Ref>, count': map<Ref, int>)
    requires obj.Keys == count.Keys && Exact(LiveGraph(obj, count), count, outside)
    requires |ptr| == |inClique| && AllDistinct(ptr) && c == ChosenOf(ptr, inClique)
    requires forall x :: x in ptr ==> x in LiveGraph(obj, count)
    requires Enclosed(LiveGraph(obj, count), outside, c) && Marked(count, c, count')
    ensures LiveGraph(obj, count') == LiveGraph(obj, count) - c
    ensures Exact(LiveGraph(obj, count'), count', outside + Owed(obj, ptr, inClique, Condemned(obj, count')))
  {
    var g, d := LiveGraph(obj, count), Condemned(obj, count');
    assert LiveGraph(obj, count') == g - c;
    var owed := Owed(obj, ptr, inClique, d);
    OwedIsOutgoing(obj, g, ptr, inClique, d);
    IncomingSplit(g, c);
    forall x | x !in c
      ensures owed[x] == Incoming(Only(g, c))[x]
    {
      assert x in Incoming(Only(g, c)) ==> x in Incoming(g) + outside;
    }
    CondemnedExact(g, count, outside, c, count', owed);
  }

  /** A heap seen as a value. */
  datatype State = State(obj: map<Ref, Body>, count: map<Ref, int>, outside: multiset<Ref>)

  ghost function Live(s: State): Graph {
    LiveGraph(s.obj, s.count)
  }

  ghost predicate Good(s: State) {
    s.obj.Keys == s.count.Keys && Exact(Live(s), s.count, s.outside)
  }

  ghost predicate StillHeld(s: State, t: State) {
    AllHeld(Live(s), s.outside) ==> AllHeld(Live(t), t.outside)
  }

  /** The effect of releasing references: from s, what base holds survives in t, and if nothing was
      unheld before, nothing is unheld afterwards; what was destroyed could be destroyed. */
  ghost predicate Settles(s: State, t: State, base: multiset<Ref>) {
    Frame(s.obj, s.count, t.obj, t.count) && Safe(Live(s), Live(t), base) && StillHeld(s, t) && Cleanly(s, t)
  }

  ghost predicate Cleanly(s: State, t: State) {
    forall x :: x in s.obj && x !in t.obj ==> Destructible(s.obj[x])
  }

  /** Some object that base does not hold cannot be destroyed without releasing something that is no object. */
  ghost predicate Doomed(s: State, base: multiset<Ref>) {
    exists x :: x in Live(s) && x in s.obj && !Held(Live(s), base, x) && !Destructible(s.obj[x])
  }

  /** What is doomed later was doomed before. */
  lemma DoomedBefore(s: State, t: State, base: multiset<Ref>, base': multiset<Ref>)
    requires Good(s) && (forall r :: r in base ==> r in Live(s)) && base <= base'
    requires Settles(s, t, base) && Doomed(t, base')
    ensures Doomed(s, base)
  {
    hide Held, Incoming, Destructible, AllHeld;
    FrameShrinks(s.obj, s.count, t.obj, t.count);
    SafeDoom(s, t, base, base');
  }

  lemma SafeDoom(s: State, t: State, base: multiset<Ref>, base': multiset<Ref>)
    requires Good(s) && (forall r :: r in base ==> r in Live(s)) && base <= base'
    requires Safe(Live(s), Live(t), base) && Doomed(t, base')
    requires forall x :: x in Live(t) ==> x in Live(s) && Live(t)[x] == Live(s)[x] && x in s.obj && x in t.obj && t.obj[x] == s.obj[x]
    ensures Doomed(s, base)
  {
    hide Held, Incoming, LiveGraph, Destructible;
    ExactStaysInside(Live(s), s.count, s.outside);
    HeldPersists(Live(s), Live(t), base);
    var x :| x in Live(t) && x in t.obj && !Held(Live(t), base', x) && !Destructible(t.obj[x]);
    if Held(Live(s), base, x) {
      HeldMonotone(Live(t), Live(t), base, base', x);
    }
  }

  function Freed(s: State, p: Ref): State {
    State(s.obj - {p}, s.count - {p}, s.outside)
  }

  lemma SettlesSelf(s: State, base: multiset<Ref>)
    requires Good(s)
    ensures Settles(s, s, base)
  {
  }

  lemma SettlesNext(s: State, t: State, u: State, base: multiset<Ref>)
    requires Good(s) && (forall r :: r in base ==> r in Live(s)) && base <= u.outside
    requires Settles(s, t, base) && Settles(t, u, u.outside)
    ensures Settles(s, u, base)
  {
    ExactStaysInside(Live(s), s.count, s.outside);
    FrameTransitive(s.obj, s.count, t.obj, t.count, u.obj, u.count);
    FrameShrinks(s.obj, s.count, t.obj, t.count);
    SafeChain(Live(s), Live(t), Live(u), base, u.outside);
  }

  lemma SettlesFrame(s: State, t: State, base: multiset<Ref>)
    requires Settles(s, t, base)
    ensures forall x :: x in s.obj && s.count[x] <= 0 ==> x in t.obj && x in t.count && t.count[x] == s.count[x]
    ensures |Live(t)| <= |Live(s)|
  {
    FrameShrinks(s.obj, s.count, t.obj, t.count);
  }

  lemma OutsideIsLive(s: State)
    requires Good(s)
    ensures forall r :: r in s.outside ==> r in s.obj && r in s.count && s.count[r] > 0 && r in Live(s)
  {
    forall r | r in s.outside
      ensures r in Live(s)
    {
      assert r in Incoming(Live(s)) + s.outside;
    }
  }

  lemma TargetsNext(calls: seq<Release>, i: nat, d: set<Ref>)
    requires i < |calls|
    ensures calls[i].Object? ==> calls[i].r in Targets(calls)
    ensures calls[i].Object? ==>
      multiset(Keep(Targets(calls[i..]), d)) ==
        multiset(if calls[i].r in d then [] else [calls[i].r]) + multiset(Keep(Targets(calls[i + 1..]), d))
  {
    var rest := calls[i..];
    assert rest[1..] == calls[i + 1..] && rest[0] == calls[i];
    assert calls == calls[..i] + rest;
    TargetsJoin(calls[..i], rest);
    if calls[i].Object? {
      assert Targets(rest) == [calls[i].r] + Targets(rest[1..]);
      assert Targets(rest)[1..] == Targets(rest[1..]);
    }
  }

  lemma TargetsNone(calls: seq<Release>, d: set<Ref>)
    requires calls == []
    ensures multiset(Keep(Targets(calls), d)) == multiset{}
  {
  }

  /** s after its last reference to p was dropped: what p refers to is left over. */
  ghost predicate LostLast(s: State, p: Ref, t: State) {
    && p in s.outside && p in s.obj && p in s.count && s.count[p] == 1
    && t == State(s.obj, s.count[p := 0], s.outside - multiset{p} + multiset(References(s.obj[p])))
  }

  lemma LastReferenceUnheld(s: State, p: Ref, t: State)
    requires Good(s) && LostLast(s, p, t)
    ensures Live(t) == Live(s) - {p} && Safe(Live(s), Live(t), s.outside - multiset{p})
  {
    hide Held, Incoming, References;
    var g := Live(s);
    OutsideIsLive(s);
    assert Live(t) == g - {p};
    var m := Incoming(g) + s.outside;
    assert m[p] == 1 && s.outside[p] >= 1;
    assert Incoming(g)[p] == 0;
    LastHolderSafe(g, s.outside - multiset{p}, p);
  }

  lemma FreedLive(s: State, p: Ref)
    requires p in s.obj && p in s.count && s.count[p] <= 0
    ensures Live(Freed(s, p)) == Live(s) && p !in Live(s)
  {
  }

  lemma LastReferenceKeepsHeld(s: State, p: Ref, t: State)
    requires Good(s) && LostLast(s, p, t)
    ensures StillHeld(s, t)
  {
    hide Held, Incoming;
    LastReferenceUnheld(s, p, t);
    OutsideIsLive(s);
    if AllHeld(Live(s), s.outside) {
      var rest := s.outside - multiset{p};
      assert rest + multiset{p} == s.outside;
      ExactStaysInside(Live(s), s.count, s.outside);
      RemoveKeepsHeld(Live(s), {p}, p, rest, t.outside);
    }
  }

  lemma LastReferenceFrame(s: State, p: Ref, t: State, u: State)
    requires s.obj.Keys == s.count.Keys && LostLast(s, p, t)
    requires Frame(t.obj - {p}, t.count - {p}, u.obj, u.count)
    ensures Frame(s.obj, s.count, u.obj, u.count)
  {
  }

  lemma LeftOver(a: multiset<Ref>, p: Ref, rs: multiset<Ref>)
    ensures a - multiset{p} + rs - rs == a - multiset{p}
  {
  }

  lemma LeftOver2(base: multiset<Ref>, part: multiset<Ref>, rest: multiset<Ref>)
    ensures base + (part + rest) - part == base + rest
  {
  }

  lemma LastReferenceCleanly(s: State, p: Ref, t: State, u: State)
    requires LostLast(s, p, t) && Destructible(s.obj[p]) && Cleanly(Freed(t, p), u)
    ensures Cleanly(s, u)
  {
    hide Destructible, References;
  }

  /** After the last reference to p went, destroying p settles the heap. */
  lemma LastReferenceSettles(s: State, p: Ref, t: State, u: State)
    requires Good(s) && LostLast(s, p, t) && Destructible(s.obj[p])
    requires Settles(Freed(t, p), u, u.outside) && u.outside == t.outside - multiset(References(s.obj[p]))
    ensures u.outside == s.outside - multiset{p} && Settles(s, u, u.outside)
  {
    hide Held, Incoming, AllHeld, Frame, Safe, LiveGraph, Destructible, References, Exact, Cleanly;
    LastReferenceCleanly(s, p, t, u);
    LastReferenceUnheld(s, p, t);
    LastReferenceKeepsHeld(s, p, t);
    LastReferenceFrame(s, p, t, u);
    OutsideIsLive(s);
    ExactStaysInside(Live(s), s.count, s.outside);
    FreedLive(t, p);
    LeftOver(s.outside, p, multiset(References(s.obj[p])));
    SafeChain(Live(s), Live(t), Live(u), u.outside, u.outside);
  }

  /** If destroying p fails, p or something that goes with it was doomed. */
  lemma LastReferenceDoomed(s: State, p: Ref, t: State)
    requires Good(s) && LostLast(s, p, t)
    requires !Destructible(t.obj[p]) || Doomed(t, s.outside - multiset{p})
    ensures Doomed(s, s.outside - multiset{p})
  {
    hide Held, Incoming, References, Destructible;
    LastReferenceUnheld(s, p, t);
    OutsideIsLive(s);
    var base := s.outside - multiset{p};
    if Destructible(t.obj[p]) {
      SafeDoom(s, t, base, base);
    } else {
      assert p in Live(s) && !Held(Live(s), base, p);
    }
  }

  lemma LastReferenceGood(s: State, p: Ref, t: State)
    requires Good(s) && LostLast(s, p, t)
    ensures Good(t) && |Live(t)| < |Live(s)|
  {
    hide Incoming, References;
    OutsideIsLive(s);
    assert Live(t) == Live(s) - {p};
    SubsetSize(Live(t).Keys, Live(s).Keys);
    LastReferenceDropped(Live(s), s.count, s.outside, p);
  }

  lemma LastReferenceReleases(s: State, p: Ref, t: State)
    requires Good(t) && LostLast(s, p, t)
    ensures forall r :: r in Releases(t.obj[p]) ==> r in t.outside || r in Condemned(t.obj, t.count)
    ensures multiset(Keep(Releases(t.obj[p]), Condemned(t.obj, t.count))) == multiset(References(s.obj[p]))
  {
    ReleasesWhatItWalks(s.obj[p]);
    forall r | r in Releases(s.obj[p])
      ensures r in t.outside && r !in Condemned(t.obj, t.count)
    {
      assert r in multiset(Releases(s.obj[p]));
      assert r in t.outside;
      assert r in Incoming(Live(t)) + t.outside;
    }
    KeepAll(Releases(s.obj[p]), Condemned(t.obj, t.count));
  }

  /** s after one of several references to p was dropped. */
  ghost predicate LostShared(s: State, p: Ref, t: State) {
    && p in s.outside && p in s.obj && p in s.count && s.count[p] > 1
    && t == State(s.obj, s.count[p := s.count[p] - 1], s.outside - multiset{p})
  }

  lemma SharedReferenceGood(s: State, p: Ref, t: State)
    requires Good(s) && LostShared(s, p, t)
    ensures Good(t) && Live(t) == Live(s)
  {
    SharedReferenceDropped(Live(s), s.count, s.outside, p);
    assert Live(t) == Live(s);
  }

  lemma SharedReferenceSettles(s: State, p: Ref, t: State, u: State)
    requires Good(s) && LostShared(s, p, t)
    requires Settles(State(t.obj, t.count, t.outside + multiset{p}), u, t.outside)
    ensures Settles(s, u, t.outside)
  {
    hide Safe, AllHeld, Exact, Destructible, Live, LiveGraph, Incoming;
    SharedReferenceGood(s, p, t);
    SameLive(t, State(t.obj, t.count, t.outside + multiset{p}));
    assert t.outside + multiset{p} == s.outside;
    hide Good;
  }

  lemma SameLive(s: State, t: State)
    requires t.obj == s.obj && t.count == s.count
    ensures Live(t) == Live(s)
  {
  }

  lemma SharedReferenceDoomed(s: State, p: Ref, t: State)
    requires Good(s) && LostShared(s, p, t) && Doomed(t, t.outside)
    ensures Doomed(s, t.outside)
  {
    hide Destructible, Incoming;
    assert Live(t) == Live(s);
  }

  lemma FreedSettles(s: State, t: State, p: Ref, base: multiset<Ref>)
    requires Good(t) && Settles(s, t, base) && p in s.obj && s.count[p] <= 0
    ensures Good(Freed(t, p)) && Settles(Freed(s, p), Freed(t, p), base)
  {
    hide Held, AllHeld, Incoming, Safe, LiveGraph;
    FreedLive(s, p);
    FreedLive(t, p);
  }

  /** t is s after the clique was marked, with what the clique owes counted as held outside. */
  ghost predicate CliqueMarked(s: State, ptr: seq<Ref>, inClique: seq<bool>, t: State) {
    && |ptr| == |inClique| && AllDistinct(ptr) && (forall x :: x in ptr ==> x in Live(s))
    && t.obj == s.obj && Marked(s.count, ChosenOf(ptr, inClique), t.count)
    && t.outside == s.outside + Owed(s.obj, ptr, inClique, Condemned(t.obj, t.count))
  }

  lemma CliqueMarkedGood(s: State, ptr: seq<Ref>, inClique: seq<bool>, t: State)
    requires Good(s) && CliqueMarked(s, ptr, inClique, t)
    requires Enclosed(Live(s), s.outside, ChosenOf(ptr, inClique))
    ensures Good(t) && Live(t) == Live(s) - ChosenOf(ptr, inClique)
  {
    hide Incoming, Owed, Enclosed;
    MarkedExact(s.obj, s.count, s.outside, ptr, inClique, ChosenOf(ptr, inClique), t.count);
  }

  /** What leaves the clique is owed. */
  lemma LeavingIsOwed(s: State, ptr: seq<Ref>, inClique: seq<bool>, t: State, a: Ref, b: Ref)
    requires Good(s) && CliqueMarked(s, ptr, inClique, t)
    requires a in ChosenOf(ptr, inClique) && Edge(Live(s), a, b) && b !in ChosenOf(ptr, inClique)
    ensures b in t.outside
  {
    hide Owed, Incoming, Enclosed;
    var g, c, d := Live(s), ChosenOf(ptr, inClique), Condemned(t.obj, t.count);
    OwedIsOutgoing(s.obj, g, ptr, inClique, d);
    assert Edge(Only(g, c), a, b);
    IncomingMember(Only(g, c), b);
    ExactStaysInside(g, s.count, s.outside);
    assert b !in d;
    assert Owed(s.obj, ptr, inClique, d)[b] > 0;
  }

  lemma CliqueKeepsHeld(s: State, ptr: seq<Ref>, inClique: seq<bool>, t: State, p: Ref)
    requires Good(s) && CliqueMarked(s, ptr, inClique, t)
    requires Live(t) == Live(s) - ChosenOf(ptr, inClique) && p in ChosenOf(ptr, inClique)
    ensures StillHeld(State(s.obj, s.count, s.outside + multiset{p}), t)
  {
    hide Held, Owed, Incoming, LiveGraph;
    var c := ChosenOf(ptr, inClique);
    OutsideIsLive(s);
    ExactStaysInside(Live(s), s.count, s.outside);
    if AllHeld(Live(s), s.outside + multiset{p}) {
      forall a, b | a in c && Edge(Live(s), a, b) && b !in c
        ensures b in t.outside
      {
        LeavingIsOwed(s, ptr, inClique, t, a, b);
      }
      RemoveKeepsHeld(Live(s), c, p, s.outside, t.outside);
    }
  }

  function FreedAll(s: State, c: set<Ref>): State {
    State(s.obj - c, s.count - c, s.outside)
  }

  lemma FreedAllGood(s: State, c: set<Ref>)
    requires Good(s) && forall x :: x in c ==> x in s.obj && x in s.count && s.count[x] < 0
    ensures Live(FreedAll(s, c)) == Live(s) && Good(FreedAll(s, c))
  {
    hide Incoming;
    assert Live(FreedAll(s, c)) == Live(s);
  }

  lemma CollectionFrame(s: State, ptr: seq<Ref>, inClique: seq<bool>, t: State, u: State)
    requires Good(s) && CliqueMarked(s, ptr, inClique, t) && Frame(t.obj, t.count, u.obj, u.count)
    ensures Frame(s.obj, s.count, u.obj - ChosenOf(ptr, inClique), u.count - ChosenOf(ptr, inClique))
    ensures forall x :: x in ChosenOf(ptr, inClique) ==> x in u.obj && x in u.count && u.count[x] < 0
  {
    hide Owed, Exact;
    var c := ChosenOf(ptr, inClique);
    forall x | x in c
      ensures x in u.obj && x in u.count && u.count[x] < 0 && s.count[x] > 0
    {
      assert x in Live(s);
      assert t.count[x] == -1;
    }
  }

  /** Marking, destroying and freeing an enclosed clique settles the heap that lost a holder of p. */
  lemma CollectionSettles(s: State, ptr: seq<Ref>, inClique: seq<bool>, t: State, u: State, p: Ref)
    requires Good(s) && CliqueMarked(s, ptr, inClique, t) && p in ChosenOf(ptr, inClique)
    requires Enclosed(Live(s), s.outside, ChosenOf(ptr, inClique))
    requires Good(u) && Settles(t, u, s.outside) && u.outside == s.outside
    requires forall x :: x in ChosenOf(ptr, inClique) ==> x in s.obj && Destructible(s.obj[x])
    ensures Good(FreedAll(u, ChosenOf(ptr, inClique)))
    ensures Settles(State(s.obj, s.count, s.outside + multiset{p}), FreedAll(u, ChosenOf(ptr, inClique)), s.outside)
  {
    hide Held, Incoming, Owed, Frame, LiveGraph, Safe, AllHeld, Enclosed, Exact;
    var c := ChosenOf(ptr, inClique);
    CliqueMarkedGood(s, ptr, inClique, t);
    CliqueKeepsHeld(s, ptr, inClique, t, p);
    CollectionFrame(s, ptr, inClique, t, u);
    FreedAllGood(u, c);
    EnclosedNotHeld(Live(s), s.outside, c);
    OutsideIsLive(s);
    ExactStaysInside(Live(s), s.count, s.outside);
    SafeChain(Live(s), Live(t), Live(u), s.outside, s.outside);
  }

  /** If destroying the members of an enclosed clique fails, one of them, or something that goes with them,
      was doomed. */
  lemma CliqueDoomed(s: State, ptr: seq<Ref>, inClique: seq<bool>, t: State)
    requires Good(s) && CliqueMarked(s, ptr, inClique, t) && Enclosed(Live(s), s.outside, ChosenOf(ptr, inClique))
    requires Doomed(t, s.outside) || exists x :: x in ChosenOf(ptr, inClique) && x in t.obj && !Destructible(t.obj[x])
    ensures Doomed(s, s.outside)
  {
    hide Held, Incoming, Owed, Enclosed, Exact, Destructible;
    var c := ChosenOf(ptr, inClique);
    CliqueMarkedGood(s, ptr, inClique, t);
    EnclosedNotHeld(Live(s), s.outside, c);
    OutsideIsLive(s);
    if Doomed(t, s.outside) {
      SafeDoom(s, t, s.outside, s.outside);
    } else {
      var x :| x in c && x in t.obj && !Destructible(t.obj[x]);
      assert x in Live(s) && x !in Live(t);
    }
  }

  lemma CliqueIsSmaller(s: State, ptr: seq<Ref>, inClique: seq<bool>, t: State, p: Ref)
    requires CliqueMarked(s, ptr, inClique, t) && Live(t) == Live(s) - ChosenOf(ptr, inClique)
    requires p in ChosenOf(ptr, inClique)
    ensures |Live(t)| < |Live(s)|
    ensures forall x :: x in ChosenOf(ptr, inClique) ==> x in Condemned(t.obj, t.count)
  {
    hide Owed;
    assert p in Live(s);
    SubsetSize(Live(t).Keys, Live(s).Keys);
    assert forall x :: x in ChosenOf(ptr, inClique) ==> x in Live(s);
  }

  lemma NotEnclosedSettles(s: State, p: Ref)
    requires Good(s) && !Enclosed(Live(s), s.outside, Component(Live(s), p))
    ensures Settles(State(s.obj, s.count, s.outside + multiset{p}), s, s.outside)
  {
    hide Enclosed, Held, AllHeld, Exact;
    NotEnclosedKeepsAll(Live(s), s.outside, p);
  }

  lemma CondemnedStays(s: State, t: State, base: multiset<Ref>)
    requires Good(s) && Settles(s, t, base)
    ensures Condemned(t.obj, t.count) == Condemned(s.obj, s.count)
    ensures forall x :: x in Condemned(s.obj, s.count) ==> x in s.obj && x in t.obj && t.obj[x] == s.obj[x] && x in t.count && t.count[x] < 0
  {
    hide Exact, Safe, StillHeld;
  }

  lemma OwedNext(obj: map<Ref, Body>, ptr: seq<Ref>, inClique: seq<bool>, i: nat, d: set<Ref>)
    requires |ptr| == |inClique| && i < |ptr| && forall x :: x in ptr ==> x in obj
    ensures Owed(obj, ptr[i..], inClique[i..], d)
         == (if inClique[i] then multiset(Keep(Releases(obj[ptr[i]]), d)) else multiset{}) + Owed(obj, ptr[i + 1..], inClique[i + 1..], d)
  {
    assert ptr[i..][1..] == ptr[i + 1..] && inClique[i..][1..] == inClique[i + 1..];
    OwedFirst(obj, ptr[i..], inClique[i..], d);
  }

  lemma OwedNothing(obj: map<Ref, Body>, ptr: seq<Ref>, inClique: seq<bool>, d: set<Ref>)
    requires ptr == [] && inClique == []
    ensures Owed(obj, ptr, inClique, d) == multiset{}
  {
  }

  lemma ReleasesCovered(rs: seq<Ref>, d: set<Ref>, outside: multiset<Ref>)
    requires multiset(Keep(rs, d)) <= outside
    ensures forall r :: r in rs ==> r in outside || r in d
  {
    forall r | r in rs && r !in d
      ensures r in outside
    {
      KeepsOthers(rs, d, r);
      assert r in multiset(Keep(rs, d));
    }
  }

  lemma {:induction false} KeepsOthers(rs: seq<Ref>, d: set<Ref>, x: Ref)
    requires x in rs && x !in d
    ensures x in Keep(rs, d)
  {
    if rs[0] != x {
      assert x in rs[1..];
      KeepsOthers(rs[1..], d, x);
    }
  }

  predicate HasType(b: Body) {
    b.Plain? || b.Function? || b.Type? || b.Tuple? || b.Boxed?
  }

  /** The graph g after the type object of v was replaced. */
  ghost function Retyped(g: Graph, obj: map<Ref, Body>, v: Ref, type': Ref): Graph
    requires v in obj && HasType(obj[v])
  {
    g[v := References(obj[v].(typeobj := Some(type')))]
  }

  /** The references besides the type object. */
  ghost function Fields(b: Body): seq<Ref>
    requires HasType(b)
  {
    match b
    case Plain(_) => []
    case Function(_, l, p, c) => Opt(l) + (Opt(p) + Opt(c))
    case Type(_, m, s) => Opt(m) + Opt(s)
    case Tuple(_, vs) => Present(vs)
    case Boxed(_, r) => Opt(r)
  }

  lemma ReferencesSplit(b: Body)
    requires HasType(b)
    ensures References(b) == Opt(b.typeobj) + Fields(b)
  {
    match b
    case Function(t, l, p, c) => assert Opt(t) + Opt(l) + (Opt(p) + Opt(c)) == Opt(t) + (Opt(l) + (Opt(p) + Opt(c)));
    case Type(t, m, s) => assert Opt(t) + Opt(m) + Opt(s) == Opt(t) + (Opt(m) + Opt(s));
    case _ =>
  }

  lemma RetypedReferences(b: Body, r: Ref)
    requires HasType(b)
    ensures multiset(References(b.(typeobj := Some(r)))) + multiset(Opt(b.typeobj)) == multiset(References(b)) + multiset{r}
  {
    ReferencesSplit(b);
    ReferencesSplit(b.(typeobj := Some(r)));
    hide References, Opt;
    assert Fields(b.(typeobj := Some(r))) == Fields(b);
    assert Opt(Some(r)) == [r] by { SomeIsOne(r); }
    assert multiset(Opt(b.typeobj) + Fields(b)) == multiset(Opt(b.typeobj)) + multiset(Fields(b));
    assert multiset([r] + Fields(b)) == multiset{r} + multiset(Fields(b));
  }

  lemma RetypedLoses(b: Body, r: Ref, x: Ref)
    requires HasType(b) && x in References(b) && x !in References(b.(typeobj := Some(r)))
    ensures x in multiset(Opt(b.typeobj))
  {
    ReferencesSplit(b);
    ReferencesSplit(b.(typeobj := Some(r)));
    hide References;
    assert Fields(b.(typeobj := Some(r))) == Fields(b);
  }

  lemma SomeIsOne(r: Ref)
    ensures Opt(Some(r)) == [r]
  {
  }

  /** The heap s after type' was referred to from v, the old type object being left over. */
  ghost predicate TypeSet(s: State, v: Ref, type': Ref, t: State) {
    && v in s.obj && HasType(s.obj[v]) && type' in s.count
    && t.obj == s.obj[v := s.obj[v].(typeobj := Some(type'))]
    && t.count == s.count[type' := s.count[type'] + 1]
    && t.outside == s.outside + multiset(Opt(s.obj[v].typeobj))
  }

  lemma TypeSetExact(s: State, v: Ref, type': Ref, t: State)
    requires Good(s) && v in Live(s) && type' in Live(s) && TypeSet(s, v, type', t)
    ensures Live(t) == Retyped(Live(s), s.obj, v, type') && Good(t)
  {
    hide Incoming, References, Opt, Exact;
    assert Live(t) == Retyped(Live(s), s.obj, v, type');
    assert Live(s)[v] == References(s.obj[v]);
    RetypedReferences(s.obj[v], type');
    RewrittenExact(Live(s), v, References(s.obj[v].(typeobj := Some(type'))), s.count, s.outside,
                   multiset(Opt(s.obj[v].typeobj)), type');
  }

  /** Giving v new references, of which r is counted, keeps the counts exact if the lost ones are held outside. */
  lemma RewrittenExact(g: Graph, v: Ref, refs: seq<Ref>, count: map<Ref, int>, outside: multiset<Ref>, lost: multiset<Ref>, r: Ref)
    requires Exact(g, count, outside) && v in g && r in g
    requires multiset(refs) + lost == multiset(g[v]) + multiset{r}
    ensures Exact(g[v := refs], count[r := count[r] + 1], outside + lost)
  {
    hide Incoming, Exact;
    var h: Graph := g[v := refs];
    RewrittenIncoming(g, v, refs);
    Regrouped(Incoming(g - {v}), multiset(g[v]), multiset(refs), outside, lost, multiset{r});
    ExactShift(g, h, count, outside, outside + lost, r);
  }

  lemma RewrittenIncoming(g: Graph, v: Ref, refs: seq<Ref>)
    requires v in g
    ensures Incoming(g) == multiset(g[v]) + Incoming(g - {v}) && Incoming(g[v := refs]) == multiset(refs) + Incoming(g - {v})
  {
    hide Incoming;
    var h: Graph := g[v := refs];
    IncomingRemove(g, v);
    IncomingRemove(h, v);
    assert h - {v} == g - {v};
  }

  lemma Regrouped(rest: multiset<Ref>, a: multiset<Ref>, b: multiset<Ref>, outside: multiset<Ref>, old': multiset<Ref>, new': multiset<Ref>)
    requires b + old' == a + new'
    ensures (b + rest) + (outside + old') == (a + rest) + outside + new'
  {
    var l, r := (b + rest) + (outside + old'), (a + rest) + outside + new';
    forall x
      ensures l[x] == r[x]
    {
      assert (b + old')[x] == (a + new')[x];
    }
  }

  /** One more reference to type', counted. */
  lemma ExactShift(g: Graph, h: Graph, count: map<Ref, int>, outside: multiset<Ref>, outside': multiset<Ref>, r: Ref)
    requires Exact(g, count, outside) && h.Keys == g.Keys && r in g
    requires Incoming(h) + outside' == Incoming(g) + outside + multiset{r}
    ensures Exact(h, count[r := count[r] + 1], outside')
  {
    hide Incoming;
    var m, m' := Incoming(g) + outside, Incoming(h) + outside';
    assert forall x :: m'[x] == if x == r then m[x] + 1 else m[x];
    assert forall x :: x in m' ==> x in m || x == r;
  }

  /** Replacing the references of v keeps everything held if what v no longer refers to is held outside. */
  lemma RewrittenHeld(g: Graph, v: Ref, refs: seq<Ref>, outside: multiset<Ref>, outside': multiset<Ref>)
    requires Closed(g, g.Keys) && v in g && outside <= outside' && AllHeld(g, outside)
    requires forall r :: r in outside ==> r in g
    requires forall b :: b in g[v] && b !in refs ==> b in outside'
    ensures AllHeld(g[v := refs], outside')
  {
    hide Reaches, Held;
    var h := g[v := refs];
    var held := set x | x in g && Held(h, outside', x);
    forall a, b | a in held && Edge(g, a, b)
      ensures b in held
    {
      RewrittenNext(g, v, refs, outside', a, b);
    }
    forall x | x in h
      ensures Held(h, outside', x)
    {
      var r := HolderOf(g, outside, x);
      HeldRoot(h, outside', r);
      ClosedContains(g, held, r, x);
    }
  }

  lemma HolderOf(g: Graph, outside: multiset<Ref>, x: Ref) returns (r: Ref)
    requires AllHeld(g, outside) && x in g
    ensures r in outside && Reaches(g, r, x)
  {
    hide Reaches;
    r :| r in outside && Reaches(g, r, x);
  }

  lemma RewrittenNext(g: Graph, v: Ref, refs: seq<Ref>, outside: multiset<Ref>, a: Ref, b: Ref)
    requires v in g && Held(g[v := refs], outside, a) && Edge(g, a, b)
    requires forall b :: b in g[v] && b !in refs ==> b in outside
    ensures Held(g[v := refs], outside, b)
  {
    hide Held;
    var h := g[v := refs];
    if Edge(h, a, b) {
      HeldNext(h, outside, a, b);
    } else {
      HeldRoot(h, outside, b);
    }
  }

  lemma TypeSetHeld(s: State, v: Ref, type': Ref, t: State)
    requires Good(s) && v in Live(s) && type' in Live(s) && TypeSet(s, v, type', t)
    requires AllHeld(Live(s), s.outside)
    ensures AllHeld(Retyped(Live(s), s.obj, v, type'), t.outside)
  {
    hide Incoming, References, Held, AllHeld, Opt;
    ExactStaysInside(Live(s), s.count, s.outside);
    OutsideIsLive(s);
    assert Live(s)[v] == References(s.obj[v]);
    var refs := References(s.obj[v].(typeobj := Some(type')));
    forall b | b in Live(s)[v] && b !in refs
      ensures b in t.outside
    {
      RetypedLoses(s.obj[v], type', b);
    }
    RewrittenHeld(Live(s), v, refs, s.outside, t.outside);
  }

  lemma SetTypeGood(s: State, v: Ref, type': Ref, t: State)
    requires Good(s) && v in Live(s) && type' in Live(s) && TypeSet(s, v, type', t)
    ensures Good(t) && Live(t) == Retyped(Live(s), s.obj, v, type')
    ensures AllHeld(Live(s), s.outside) ==> AllHeld(Live(t), t.outside)
  {
    hide Incoming, LiveGraph, Held, AllHeld;
    TypeSetExact(s, v, type', t);
    hide Retyped, Good;
    if AllHeld(Live(s), s.outside) {
      TypeSetHeld(s, v, type', t);
    }
  }

  lemma LiveIsThere(s: State, r: Ref)
    requires r in Live(s)
    ensures r in s.obj && r in s.count
  {
  }

  lemma TypeIsSet(s: State, v: Ref, type': Ref, t: State)
    requires v in s.obj && HasType(s.obj[v]) && type' in s.count
    requires t == State(s.obj[v := s.obj[v].(typeobj := Some(type'))], s.count[type' := s.count[type'] + 1],
                        s.outside + multiset(Opt(s.obj[v].typeobj)))
    ensures TypeSet(s, v, type', t)
  {
  }

  /** What setting the type of v comes to: u is s with the new type, less what could go, with exact counts; or
      something that had to go could not. */
  ghost predicate Retypes(s: State, v: Ref, type': Ref, ok: bool, u: State)
    requires v in Live(s) && v in s.obj && HasType(s.obj[v])
  {
    if ok then
      && Good(u) && u.outside == s.outside
      && Safe(Retyped(Live(s), s.obj, v, type'), Live(u), u.outside)
      && (forall x :: x in Live(u) ==> x in s.obj && x in u.obj && u.obj[x] == if x == v then s.obj[v].(typeobj := Some(type')) else s.obj[x])
      && (AllHeld(Live(s), s.outside) ==> AllHeld(Live(u), u.outside))
    else
      Doomed(State(s.obj[v := s.obj[v].(typeobj := Some(type'))], s.count, s.outside), s.outside)
  }

  lemma SetTypeMeans(s: State, v: Ref, type': Ref, t: State, ok: bool, u: State)
    requires Good(s) && v in Live(s) && v in s.obj && TypeSet(s, v, type', t)
    requires Live(t) == Retyped(Live(s), s.obj, v, type') && (AllHeld(Live(s), s.outside) ==> AllHeld(Live(t), t.outside))
    requires if ok then Good(u) && Settles(t, u, u.outside) && u.outside == s.outside else Doomed(t, s.outside)
    ensures Retypes(s, v, type', ok, u)
  {
    hide Settles, Good, Live, Retyped, AllHeld, Safe, Doomed;
    if ok {
      SettlesMeans(t, u, u.outside);
    } else {
      RetypedLive(s, v, type');
      SameDoom(t, State(t.obj, s.count, s.outside), s.outside);
    }
  }

  lemma RetypedLive(s: State, v: Ref, type': Ref)
    requires v in Live(s) && v in s.obj && HasType(s.obj[v])
    ensures Live(State(s.obj[v := s.obj[v].(typeobj := Some(type'))], s.count, s.outside)) == Retyped(Live(s), s.obj, v, type')
  {
    hide References;
  }

  lemma SameDoom(s: State, t: State, base: multiset<Ref>)
    requires Doomed(s, base) && t.obj == s.obj && Live(t) == Live(s)
    ensures Doomed(t, base)
  {
  }

  lemma IncomingFresh(g: Graph, r: Ref)
    requires r !in g
    ensures Incoming(g[r := []]) == Incoming(g)
  {
    IncomingRemove(g[r := []], r);
    assert g[r := []] - {r} == g;
  }

  lemma NewReferenceExact(g: Graph, count: map<Ref, int>, outside: multiset<Ref>, r: Ref)
    requires Exact(g, count, outside) && r !in g
    ensures Exact(g[r := []], count[r := 1], outside + multiset{r})
  {
    hide Incoming;
    IncomingFresh(g, r);
    var m, m' := Incoming(g) + outside, Incoming(g[r := []]) + (outside + multiset{r});
    assert r !in m;
    assert forall x :: m'[x] == if x == r then 1 else m[x];
  }

  lemma NewReferenceHeld(s: State, r: Ref, t: State)
    requires Live(t) == Live(s)[r := []] && r !in Live(s) && t.outside == s.outside + multiset{r}
    requires AllHeld(Live(s), s.outside)
    ensures AllHeld(Live(t), t.outside)
  {
    hide LiveGraph;
    var g, h := Live(s), Live(t);
    HeldRoot(h, t.outside, r);
    forall x | x in g
      ensures Held(h, t.outside, x)
    {
      HeldMonotone(g, h, s.outside, t.outside, x);
    }
  }

  lemma NewReferenceGood(s: State, r: Ref, t: State)
    requires Good(s) && r !in s.obj
    requires t == State(s.obj[r := Plain(None)], s.count[r := 1], s.outside + multiset{r}) && Live(t) == Live(s)[r := []]
    ensures Good(t) && (AllHeld(Live(s), s.outside) ==> AllHeld(Live(t), t.outside))
  {
    hide Held, LiveGraph, AllHeld;
    var g, h := Live(s), Live(t);
    NewReferenceExact(g, s.count, s.outside, r);
    if AllHeld(g, s.outside) {
      NewReferenceHeld(s, r, t);
    }
  }

  lemma SettlesMeans(s: State, t: State, base: multiset<Ref>)
    requires Settles(s, t, base)
    ensures forall x :: x in Live(t) ==> x in s.obj && x in t.obj && t.obj[x] == s.obj[x]
    ensures Safe(Live(s), Live(t), base)
    ensures AllHeld(Live(s), s.outside) ==> AllHeld(Live(t), t.outside)
  {
    hide Held, AllHeld, Safe;
  }

  /** Where everything was held, a release frees exactly what is no longer held. */
  lemma FreesExactlyTheUnheld(s: State, t: State)
    requires Good(s) && Good(t) && AllHeld(Live(s), s.outside)
    requires Settles(s, t, t.outside)
    ensures forall x :: x in Live(s) ==> (x in Live(t) <==> Held(Live(s), t.outside, x))
    ensures AllHeld(Live(t), t.outside)
  {
    hide Incoming, LiveGraph;
    FrameShrinks(s.obj, s.count, t.obj, t.count);
    forall x | x in Live(t)
      ensures Held(Live(s), t.outside, x)
    {
      HeldMonotone(Live(t), Live(s), t.outside, t.outside, x);
    }
  }

  /** A release that starts from s, leaves base held and ends in t. Where everything was held, it succeeds
      exactly if every object that base does not hold can be destroyed; and then exactly those are gone. */
  ghost predicate ReleasesExactly(s: State, base: multiset<Ref>, ok: bool, t: State) {
    AllHeld(Live(s), s.outside) ==>
      && (ok <==> !Doomed(s, base))
      && (ok ==> AllHeld(Live(t), base) && forall x :: x in Live(s) ==> (x in Live(t) <==> Held(Live(s), base, x)))
  }

  lemma SuccessIsExact(s: State, t: State, base: multiset<Ref>)
    requires Good(s) && Good(t) && Settles(s, t, base) && t.outside == base
    ensures ReleasesExactly(s, base, true, t)
  {
    hide Incoming, Held, AllHeld, Destructible;
    if AllHeld(Live(s), s.outside) {
      FreesExactlyTheUnheld(s, t);
      forall x | x in Live(s) && x in s.obj && !Held(Live(s), base, x)
        ensures Destructible(s.obj[x])
      {
        assert x !in Live(t);
        assert x !in t.obj;
      }
    }
  }

  lemma FailureIsExact(s: State, t: State, base: multiset<Ref>)
    requires Doomed(s, base)
    ensures ReleasesExactly(s, base, false, t)
  {
  }

  lemma NothingReleased(s: State)
    ensures ReleasesExactly(s, s.outside, true, s)
  {
    hide Held, Destructible;
  }

  /** A type spec with the type of a pointer in it: the only object held is the type spec. */
  const POINTER_SPEC: State := State(map[0 := Tree([Always(Some(1))]), 1 := PointerTree("T")], map[0 := 1, 1 := 1], multiset{0})

  lemma NoIncoming()
    ensures Incoming(map[]) == multiset{}
  {
  }

  lemma PointerSpecIsGood()
    ensures Good(POINTER_SPEC)
  {
    hide Incoming, LiveGraph;
    var g: Graph := map[0 := [1], 1 := []];
    PointerSpecGraph(g);
  }

  lemma PointerSpecLive(g: Graph)
    requires g == map[0 := [1], 1 := []]
    ensures Live(POINTER_SPEC) == g
  {
    var bs := [Always(Some(1))];
    assert bs[1..] == [] && Children(bs) == [1];
  }

  lemma PointerSpecGraph(g: Graph)
    requires g == map[0 := [1], 1 := []]
    ensures Live(POINTER_SPEC) == g && Incoming(g) == multiset{1}
  {
    hide Incoming, Live;
    PointerSpecLive(g);
    var h: Graph, none: Graph := map[1 := []], map[];
    IncomingRemove(g, 0);
    IncomingRemove(h, 1);
    assert g - {0} == h && h - {1} == none;
    NoIncoming();
  }

  /** Its counts are exact and everything in it is held, but no release of it succeeds: the type of the pointer
      is doomed. */
  lemma PointerSpecIsDoomed()
    ensures Good(POINTER_SPEC) && AllHeld(Live(POINTER_SPEC), POINTER_SPEC.outside) && Doomed(POINTER_SPEC, multiset{})
    ensures forall ok, t :: ReleasesExactly(POINTER_SPEC, multiset{}, ok, t) ==> !ok
  {
    var g: Graph := map[0 := [1], 1 := []];
    PointerSpecGraph(g);
    PointerSpecIsGood();
    hide LiveGraph, Incoming, Reaches, Good;
    HeldRoot(g, multiset{0}, 0);
    assert Edge(g, 0, 1);
    HeldNext(g, multiset{0}, 0, 1);
    assert !Held(g, multiset{}, 1);
    hide Held;
    assert 1 in Live(POINTER_SPEC) && !Destructible(POINTER_SPEC.obj[1]);
  }

  class Heap {
    var obj: map<Ref, Body>
    var count: map<Ref, int>
    /** The references held by everything that is not an object of the heap. */
    ghost var outside: multiset<Ref>

    ghost function Now(): State
      reads this
    {
      State(obj, count, outside)
    }

    constructor ()
      ensures Good(Now()) && obj == map[] && outside == multiset{}
    {
      obj, count, outside := map[], map[], multiset{};
    }

    /** A new value starts with one reference, its creator's, and refers to nothing. */
    method NewReference(r: Ref)
      requires Good(Now()) && r !in obj
      modifies this
      ensures Good(Now()) && Live(Now()) == old(Live(Now()))[r := []]
      ensures Now() == old(State(obj[r := Plain(None)], count[r := 1], outside + multiset{r}))
      ensures old(AllHeld(Live(Now()), outside)) ==> AllHeld(Live(Now()), outside)
    {
      hide Good, AllHeld;
      ghost var s := Now();
      obj, count := obj[r := Plain(None)], count[r := 1];
      outside := outside + multiset{r};
      assert Live(Now()) == Live(s)[r := []];
      NewReferenceGood(s, r, Now());
    }

    /** Replaces the type object of v: the new one is referred to before the old one is released. */
    method SetType(v: Ref, type': Ref) returns (ok: bool)
      requires Good(Now()) && v in Live(Now()) && type' in Live(Now()) && HasType(obj[v])
      modifies this
      ensures old(v in obj) && Retypes(old(Now()), v, type', ok, Now())
    {
      hide Good, Live, TypeSet, Retypes, Settles, Doomed, ReleasesExactly;
      ghost var s := Now();
      LiveIsThere(s, v);
      LiveIsThere(s, type');
      var tmp := obj[v].typeobj;
      AddReference(type');
      obj := obj[v := obj[v].(typeobj := Some(type'))];
      outside := s.outside + multiset(Opt(tmp));
      ghost var t := Now();
      TypeIsSet(s, v, type', t);
      SetTypeGood(s, v, type', t);
      ok := ReleaseOld(tmp, s.outside);
      SetTypeMeans(s, v, type', t, ok, Now());
    }

    method ReleaseOld(tmp: Option<Ref>, ghost base: multiset<Ref>) returns (ok: bool)
      requires Good(Now()) && outside == base + multiset(Opt(tmp))
      modifies this
      ensures ok ==> Good(Now()) && Settles(old(Now()), Now(), outside) && outside == base
      ensures !ok ==> Doomed(old(Now()), base)
      ensures ReleasesExactly(old(Now()), base, ok, Now())
    {
      hide Settles, Good, Doomed, ReleasesExactly;
      OutsideIsLive(Now());
      ok := true;
      if tmp.Some? {
        assert tmp.value in outside;
        assert outside - multiset{tmp.value} == base;
        ok := DelReference(tmp.value);
      } else {
        SettlesSelf(Now(), base);
        assert outside == base;
        NothingReleased(Now());
      }
    }

    method AddReference(p: Ref)
      requires Good(Now()) && p in Live(Now())
      modifies this
      ensures Good(Now()) && Live(Now()) == old(Live(Now()))
      ensures Now() == old(State(obj, count[p := count[p] + 1], outside + multiset{p}))
    {
      count := count[p := count[p] + 1];
      outside := outside + multiset{p};
      assert Live(Now()) == old(Live(Now()));
      SharedReferenceAdded(Live(Now()), old(count), old(outside), p);
    }

    /** Gives up one reference to p held outside the heap. It fails when something that is no object would be
        released; what happens from there on the source does not define. */
    method DelReference(p: Ref) returns (ok: bool)
      requires Good(Now()) && p in obj && (p in outside || count[p] < 0)
      modifies this
      ensures ok ==> Good(Now()) && Settles(old(Now()), Now(), outside)
      ensures old(count[p]) < 0 ==> ok && Now() == old(Now())
      ensures ok && old(count[p]) > 0 ==> outside == old(outside) - multiset{p}
      ensures !ok ==> Doomed(old(Now()), old(outside) - multiset{p})
      ensures old(count[p]) > 0 ==> ReleasesExactly(old(Now()), old(outside) - multiset{p}, ok, Now())
      decreases |Live(Now())|, 2, 0
    {
      hide Settles, Doomed, ReleasesExactly, Destructible, Releases, References, Keep;
      if count[p] < 0 {
        SettlesSelf(Now(), outside);
        return true;
      }
      ghost var s := Now();
      ghost var base := outside - multiset{p};
      assert p in Incoming(Live(s)) + outside;
      count := count[p := count[p] - 1];
      if count[p] == 0 {
        outside := outside - multiset{p} + multiset(References(obj[p]));
        ghost var t := Now();
        LastReferenceGood(s, p, t);
        LastReferenceReleases(s, p, t);
        LeftOver(s.outside, p, multiset(References(s.obj[p])));
        ok := DelObject(p, true);
        if ok {
          LastReferenceSettles(s, p, t, Now());
        } else {
          LastReferenceDoomed(s, p, t);
        }
      } else {
        outside := outside - multiset{p};
        ghost var t := Now();
        SharedReferenceGood(s, p, t);
        ok := PerformCyclicCollection(p);
        if ok {
          SharedReferenceSettles(s, p, t, Now());
        } else {
          SharedReferenceDoomed(s, p, t);
        }
      }
      if ok {
        SuccessIsExact(s, Now(), base);
      } else {
        FailureIsExact(s, Now(), base);
      }
    }

    /** Frees the clique of p if nothing outside the clique refers to it. */
    method PerformCyclicCollection(p: Ref) returns (ok: bool)
      requires Good(Now()) && p in obj && count[p] != 0
      modifies this
      ensures ok ==> Good(Now()) && outside == old(outside)
      ensures ok && old(count[p]) > 0 ==> Settles(old(State(obj, count, outside + multiset{p})), Now(), outside)
      ensures if old(count[p]) > 0 && Enclosed(old(Live(Now())), old(outside), Component(old(Live(Now())), p))
              then ok ==> obj.Keys !! Component(old(Live(Now())), p)
              else ok && Now() == old(Now())
      ensures !ok ==> Doomed(old(Now()), old(outside))
      decreases |Live(Now())|, 1
    {
      hide Held, Incoming, Safe, Frame, AllHeld, Enclosed, Doomed, Cleanly;
      if count[p] < 0 {
        return true;
      }
      ghost var s, g := Now(), Live(Now());
      ExactStaysInside(g, count, outside);
      var list := new CyclicGarbageList(p);
      list.Walk(p, obj, g);
      var enclosed := list.GrowClique(count, g, p, outside);
      if enclosed {
        ok := DestroyClique(p, list.ptr, list.inClique);
      } else {
        NotEnclosedSettles(s, p);
        ok := true;
      }
    }

    /** Marks, destroys and frees the chosen objects. */
    method DestroyClique(p: Ref, ptr: seq<Ref>, inClique: seq<bool>) returns (ok: bool)
      requires Good(Now()) && |ptr| == |inClique| && AllDistinct(ptr) && forall x :: x in ptr ==> x in Live(Now())
      requires Enclosed(Live(Now()), outside, ChosenOf(ptr, inClique)) && p in ChosenOf(ptr, inClique)
      modifies this
      ensures ok ==> Good(Now()) && outside == old(outside)
      ensures ok ==> Settles(old(State(obj, count, outside + multiset{p})), Now(), outside)
      ensures ok ==> obj.Keys !! ChosenOf(ptr, inClique)
      ensures !ok ==> Doomed(old(Now()), old(outside))
      decreases |Live(Now())|, 0
    {
      hide Settles, Good, Enclosed, Owed, Doomed, Destructible;
      ghost var s := Now();
      MarkClique(ptr, inClique);
      outside := outside + Owed(obj, ptr, inClique, Condemned(obj, count));
      ghost var t := Now();
      CliqueMarkedGood(s, ptr, inClique, t);
      CliqueIsSmaller(s, ptr, inClique, t, p);
      ok := DeleteClique(ptr, inClique, s.outside);
      if !ok {
        CliqueDoomed(s, ptr, inClique, t);
        return;
      }
      ghost var u := Now();
      CollectionSettles(s, ptr, inClique, t, u, p);
      FreeClique(ptr, inClique);
    }

    method MarkClique(ptr: seq<Ref>, inClique: seq<bool>)
      requires |ptr| == |inClique| && forall x :: x in ptr ==> x in count
      modifies this`count
      ensures Marked(old(count), ChosenOf(ptr, inClique), count)
    {
      var i := 0;
      while i < |ptr|
        invariant i <= |ptr| && count.Keys == old(count).Keys
        invariant forall k :: 0 <= k < i && inClique[k] ==> count[ptr[k]] == -1
        invariant forall x :: x in count ==> count[x] == old(count)[x] || (x in ChosenOf(ptr, inClique) && count[x] == -1)
      {
        if inClique[i] {
          count := count[ptr[i] := -1];
        }
        i := i + 1;
      }
    }

    /** Destroys the chosen objects one after another; base is what the rest of the world holds. */
    method DeleteClique(ptr: seq<Ref>, inClique: seq<bool>, ghost base: multiset<Ref>) returns (ok: bool)
      requires Good(Now()) && |ptr| == |inClique| && forall x :: x in ptr ==> x in obj
      requires forall x :: x in ChosenOf(ptr, inClique) ==> x in Condemned(obj, count)
      requires outside == base + Owed(obj, ptr, inClique, Condemned(obj, count))
      modifies this
      ensures ok ==> Good(Now()) && Settles(old(Now()), Now(), base) && outside == base
      ensures ok ==> forall x :: x in ChosenOf(ptr, inClique) ==> x in old(obj) && Destructible(old(obj)[x])
      ensures !ok ==> Doomed(old(Now()), base) || exists x :: x in ChosenOf(ptr, inClique) && x in old(obj) && !Destructible(old(obj)[x])
      decreases |Live(Now())|, 6
    {
      hide Settles, Good, Live, Keep, Releases, Owed, Condemned, Doomed, Destructible;
      ghost var s, d := Now(), Condemned(obj, count);
      SettlesSelf(s, base);
      var i := 0;
      assert ptr[0..] == ptr && inClique[0..] == inClique;
      while i < |ptr|
        invariant i <= |ptr|
        invariant Good(Now()) && Settles(s, Now(), base)
        invariant outside == base + Owed(s.obj, ptr[i..], inClique[i..], d)
        invariant forall k :: 0 <= k < i && inClique[k] ==> Destructible(s.obj[ptr[k]])
      {
        OwedNext(s.obj, ptr, inClique, i, d);
        if inClique[i] {
          assert ptr[i] in ChosenOf(ptr, inClique);
          ok := DeleteMember(ptr[i], s, base, Owed(s.obj, ptr[i + 1..], inClique[i + 1..], d));
          if !ok {
            return;
          }
        }
        i := i + 1;
      }
      OwedNothing(s.obj, ptr[i..], inClique[i..], d);
      assert outside == base;
      ok := true;
    }

    method DeleteMember(x: Ref, ghost s: State, ghost base: multiset<Ref>, ghost rest: multiset<Ref>) returns (ok: bool)
      requires Good(Now()) && Good(s) && Settles(s, Now(), base)
      requires x in Condemned(s.obj, s.count) && base <= s.outside
      requires outside == base + (multiset(Keep(Releases(s.obj[x]), Condemned(s.obj, s.count))) + rest)
      modifies this
      ensures ok ==> Good(Now()) && Settles(s, Now(), base) && outside == base + rest && Destructible(s.obj[x])
      ensures !ok ==> !Destructible(s.obj[x]) || Doomed(s, base)
      decreases |Live(s)|, 5
    {
      hide Settles, Good, Keep, Releases, Doomed, Destructible;
      ghost var t := Now();
      OutsideIsLive(s);
      SettlesFrame(s, t, base);
      CondemnedStays(s, t, base);
      ReleasesCovered(Releases(s.obj[x]), Condemned(s.obj, s.count), outside);
      LeftOver2(base, multiset(Keep(Releases(s.obj[x]), Condemned(s.obj, s.count))), rest);
      ok := DelObject(x, false);
      if ok {
        SettlesNext(s, t, Now(), base);
      } else if Destructible(s.obj[x]) {
        DoomedBefore(s, t, base, base + rest);
      }
    }

    method FreeClique(ptr: seq<Ref>, inClique: seq<bool>)
      requires |ptr| == |inClique|
      modifies this`obj, this`count
      ensures Now() == FreedAll(old(Now()), ChosenOf(ptr, inClique))
    {
      var i := 0;
      assert ChosenOf(ptr[..0], inClique[..0]) == {};
      while i < |ptr|
        invariant i <= |ptr|
        invariant Now() == FreedAll(old(Now()), ChosenOf(ptr[..i], inClique[..i]))
      {
        ChosenLast(ptr, inClique, i);
        if inClique[i] {
          obj, count := obj - {ptr[i]}, count - {ptr[i]};
        }
        i := i + 1;
      }
      assert ptr[..i] == ptr && inClique[..i] == inClique;
    }

    /** Releases what an object under destruction refers to; fails at the first release that is of no object. */
    method ReleaseFields(p: Ref) returns (ok: bool)
      requires Good(Now()) && p in obj && count[p] <= 0
      requires forall r :: r in Releases(obj[p]) ==> r in outside || r in Condemned(obj, count)
      requires multiset(Keep(Releases(obj[p]), Condemned(obj, count))) <= outside
      modifies this
      ensures ok ==> Good(Now()) && Settles(old(Now()), Now(), outside) && Destructible(old(obj[p]))
      ensures ok ==> outside == old(outside - multiset(Keep(Releases(obj[p]), Condemned(obj, count))))
      ensures !ok ==> !Destructible(old(obj[p])) || Doomed(old(Now()), old(outside - multiset(Keep(Releases(obj[p]), Condemned(obj, count)))))
      decreases |Live(Now())|, 3
    {
      hide Settles, Good, Live, Keep, ReleaseCalls, Condemned, Doomed, Destructible, Targets;
      var calls := ReleaseCalls(obj[p]);
      ghost var s, d := Now(), Condemned(obj, count);
      ghost var base := outside - multiset(Keep(Targets(calls), d));
      ReleasesOnlyObjects(obj[p]);
      SettlesSelf(s, base);
      var i := 0;
      assert calls[0..] == calls;
      while i < |calls|
        invariant i <= |calls|
        invariant Good(Now()) && Settles(s, Now(), base)
        invariant outside == base + multiset(Keep(Targets(calls[i..]), d))
        invariant forall k :: 0 <= k < i ==> calls[k].Object?
      {
        TargetsNext(calls, i, d);
        if !calls[i].Object? {
          return false;
        }
        ok := ReleaseField(calls[i].r, s, base, multiset(Keep(Targets(calls[i + 1..]), d)));
        if !ok {
          return;
        }
        i := i + 1;
      }
      TargetsNone(calls[i..], d);
      assert outside == base;
      ok := true;
    }

    method ReleaseField(r: Ref, ghost s: State, ghost base: multiset<Ref>, ghost rest: multiset<Ref>) returns (ok: bool)
      requires Good(Now()) && Good(s) && Settles(s, Now(), base)
      requires base <= s.outside && (r in s.outside || r in Condemned(s.obj, s.count))
      requires outside == base + (multiset(if r in Condemned(s.obj, s.count) then [] else [r]) + rest)
      modifies this
      ensures ok ==> Good(Now()) && Settles(s, Now(), base) && outside == base + rest
      ensures !ok ==> Doomed(s, base)
      decreases |Live(s)|, 2, 1
    {
      hide Settles, Good, Doomed, ReleasesExactly;
      ghost var t := Now();
      OutsideIsLive(s);
      SettlesFrame(s, t, base);
      OutsideIsLive(t);
      CondemnedStays(s, t, base);
      if r !in Condemned(s.obj, s.count) {
        LeftOver2(base, multiset{r}, rest);
      }
      ok := DelReference(r);
      if ok {
        SettlesNext(s, t, Now(), base);
      } else {
        DoomedBefore(s, t, base, base + rest);
      }
    }

    /** Destroys an object whose count is spent, and frees it if asked to. */
    method DelObject(p: Ref, doFree: bool) returns (ok: bool)
      requires Good(Now()) && p in obj && count[p] <= 0
      requires forall r :: r in Releases(obj[p]) ==> r in outside || r in Condemned(obj, count)
      requires multiset(Keep(Releases(obj[p]), Condemned(obj, count))) <= outside
      modifies this
      ensures ok ==> Good(Now()) && Destructible(old(obj[p]))
      ensures ok ==> Settles(if doFree then old(Freed(Now(), p)) else old(Now()), Now(), outside)
      ensures ok ==> outside == old(outside - multiset(Keep(Releases(obj[p]), Condemned(obj, count))))
      ensures !ok ==> !Destructible(old(obj[p])) || Doomed(old(Now()), old(outside - multiset(Keep(Releases(obj[p]), Condemned(obj, count)))))
      decreases |Live(Now())|, 4
    {
      hide Held, AllHeld, Safe, Exact, LiveGraph, Doomed, Destructible, Releases, Keep, Cleanly;
      ghost var s := Now();
      ok := ReleaseFields(p);
      if ok && doFree {
        FreedSettles(s, Now(), p, outside);
        obj, count := obj - {p}, count - {p};
      }
    }
  }

  lemma ChosenLast(ptr: seq<Ref>, inClique: seq<bool>, i: nat)
    requires |ptr| == |inClique| && i < |ptr|
    ensures ChosenOf(ptr[..i + 1], inClique[..i + 1]) == ChosenOf(ptr[..i], inClique[..i]) + (if inClique[i] then {ptr[i]} else {})
  {
    var more, fewer := ChosenOf(ptr[..i + 1], inClique[..i + 1]), ChosenOf(ptr[..i], inClique[..i]);
    forall x | x in fewer
      ensures x in more
    {
      var k :| 0 <= k < i && inClique[..i][k] && ptr[..i][k] == x;
      assert inClique[..i + 1][k] && ptr[..i + 1][k] == x;
    }
    forall x | x in more
      ensures x in fewer || (inClique[i] && x == ptr[i])
    {
      var k :| 0 <= k < i + 1 && inClique[..i + 1][k] && ptr[..i + 1][k] == x;
      if k < i {
        assert inClique[..i][k] && ptr[..i][k] == x;
      }
    }
    if inClique[i] {
      assert inClique[..i + 1][i] && ptr[..i + 1][i] == ptr[i];
    }
  }

  lemma SharedReferenceAdded(g: Graph, count: map<Ref, int>, outside: multiset<Ref>, p: Ref)
    requires Exact(g, count, outside) && p in g
    ensures Exact(g, count[p := count[p] + 1], outside + multiset{p})
  {
  }
}
