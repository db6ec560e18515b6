/** The deadlock test on the way of a reference removal (removereference and removeanyreferences in
    linda/src/linda/tuplespace.py): it comes between dropping the reference and the garbage collection. */
module ReferenceRemoval {
  import opened Graphs
  import opened SpaceGraph
  import opened TupleSpaceContainer
  import opened Options
  import D = Deadlock

  /** The numbers of the threads of each process. */
  type Threads = map<nat, seq<nat>>

  function Named(h: Holder): D.Holder {
    match h
    case Process(p) => D.Process(p)
    case InSpace(x) => if x == UTS then D.Uts else D.Space(x)
  }

  function NamedAll(hs: seq<Holder>): seq<D.Holder> {
    seq(|hs|, i requires 0 <= i < |hs| => Named(hs[i]))
  }

  function ThreadNames(p: nat, ns: seq<nat>): seq<D.Holder> {
    seq(|ns|, i requires 0 <= i < |ns| => D.Thread(p, ns[i]))
  }

  /** What the deadlock test walks over: spaces lead to those who refer to them, processes to their threads. */
  ghost function Links(ts: Spaces, threads: Threads): D.Holders {
    var spaces := set x | x in ts && x != UTS :: D.Space(x);
    var processes := set p | p in threads :: D.Process(p);
    map h | h in spaces + processes :: if h.Space? then NamedAll(ts[h.id].refs) else ThreadNames(h.pid, threads[h.pid])
  }

  /** The test ends, and the removal of a reference to t goes on to the garbage collection. */
  ghost predicate GoesOn(ts: Spaces, threads: Threads, blocked: set<D.Holder>, t: Id)
    requires t in ts
  {
    exists d :: D.EndsWith(Links(ts, threads), blocked, NamedAll(ts[t].refs), D.Answer(d))
  }

  ghost predicate Fails(ts: Spaces, threads: Threads, blocked: set<D.Holder>, t: Id)
    requires t in ts
  {
    D.EndsWith(Links(ts, threads), blocked, NamedAll(ts[t].refs), D.KeyError)
  }

  /** ts' is ts after some references to t were dropped. */
  ghost predicate OnlyDropped(ts: Spaces, ts': Spaces, t: Id) {
    && ts'.Keys == ts.Keys && t in ts && t != UTS
    && (forall x :: x in ts && x != t ==> ts'[x] == ts[x])
    && (forall h :: h in ts'[t].refs ==> h in ts[t].refs)
  }

  // ---- The walk and the owners ---------------------------------------------------------------------

  lemma LinksOfSpace(ts: Spaces, threads: Threads, x: Id, y: D.Holder)
    requires x in ts && x != UTS
    ensures D.Space(x) in Links(ts, threads)
    ensures Edge(Links(ts, threads), D.Space(x), y) <==> exists h :: h in ts[x].refs && y == Named(h)
  {
    var g, refs := Links(ts, threads), ts[x].refs;
    assert g[D.Space(x)] == NamedAll(refs);
    forall h | h in refs
      ensures Named(h) in NamedAll(refs)
    {
      var i :| 0 <= i < |refs| && refs[i] == h;
      assert NamedAll(refs)[i] == Named(h);
    }
  }

  lemma LinksComeFrom(ts: Spaces, threads: Threads, a: D.Holder, y: D.Holder)
    requires Edge(Links(ts, threads), a, y)
    ensures (a.Space? && a.id in ts && a.id != UTS) || (a.Process? && a.pid in threads && y.Thread?)
  {
  }

  lemma LinksWellformed(ts: Spaces, threads: Threads)
    ensures D.Wellformed(Links(ts, threads))
  {
  }

  /** Following owners from a leads to a root. */
  ghost predicate RootedHolder(ts: Spaces, a: Holder) {
    exists h :: IsRoot(h) && Reaches(Owners(ts), a, h)
  }

  lemma RootedBefore(ts: Spaces, a: Holder, b: Holder)
    requires Edge(Owners(ts), a, b) && RootedHolder(ts, b)
    ensures RootedHolder(ts, a)
  {
    hide Reaches;
    var h :| IsRoot(h) && Reaches(Owners(ts), b, h);
    ReachesFirst(Owners(ts), a, b, h);
  }

  lemma RootIsRooted(ts: Spaces, h: Holder)
    requires IsRoot(h)
    ensures RootedHolder(ts, h)
  {
    ReachesSelf(Owners(ts), h);
  }

  /** Among spaces that lead to no root the walk goes the same ways as the owners. */
  lemma SameWays(ts: Spaces, threads: Threads, y: Id, t: Id)
    requires Reaches(Owners(ts), InSpace(y), InSpace(t)) && t != UTS && y != UTS && !RootedHolder(ts, InSpace(y))
    ensures Reaches(Links(ts, threads), D.Space(y), D.Space(t))
  {
    hide Reaches, RootedHolder, Links;
    var g := Links(ts, threads);
    var s := iset a | RootedHolder(ts, a) || Reaches(g, Named(a), D.Space(t));
    ReachesSelf(g, D.Space(t));
    forall a, b | b in s && Edge(Owners(ts), a, b)
      ensures a in s
    {
      if RootedHolder(ts, b) {
        RootedBefore(ts, a, b);
      } else if a == InSpace(UTS) {
        RootIsRooted(ts, a);
      } else {
        LinksOfSpace(ts, threads, a.id, Named(b));
        ReachesFirst(g, D.Space(a.id), Named(b), D.Space(t));
      }
    }
    ReachesBackwards(Owners(ts), s, InSpace(y), InSpace(t));
  }

  // ---- A space that nothing else holds -------------------------------------------------------------

  /** What refers to t, now that it leads to no root, did so only through t. */
  lemma OwnersWentThrough(ts: Spaces, ts': Spaces, t: Id, y: Id)
    requires AllRooted(ts) && OnlyDropped(ts, ts', t) && y in ts && !RootedHolder(ts', InSpace(y))
    ensures Reaches(Owners(ts'), InSpace(y), InSpace(t))
  {
    hide Reaches, RootedHolder;
    var s := iset a | RootedHolder(ts', a) || Reaches(Owners(ts'), a, InSpace(t));
    var r :| IsRoot(r) && Reaches(Owners(ts), InSpace(y), r);
    RootIsRooted(ts', r);
    ReachesSelf(Owners(ts'), InSpace(t));
    forall a, b | b in s && Edge(Owners(ts), a, b)
      ensures a in s
    {
      if a != InSpace(t) {
        assert Edge(Owners(ts'), a, b);
        if RootedHolder(ts', b) {
          RootedBefore(ts', a, b);
        } else {
          ReachesFirst(Owners(ts'), a, b, InSpace(t));
        }
      }
    }
    ReachesBackwards(Owners(ts), s, InSpace(y), r);
  }

  /** From a space that leads to no root the walk finds only such spaces. */
  lemma NobodyFound(ts: Spaces, threads: Threads, t: Id, a: D.Holder, y: D.Holder)
    requires Ledger(ts, multiset{}) && a.Space? && a.id in ts && a.id != UTS && !RootedHolder(ts, InSpace(a.id))
    requires Reaches(Links(ts, threads), a, y)
    ensures y.Space? && y in Links(ts, threads)
  {
    hide Reaches, RootedHolder, Links, Ledger;
    var g := Links(ts, threads);
    var s := set x | x in ts && x != UTS && !RootedHolder(ts, InSpace(x)) :: D.Space(x);
    forall b, z | b in s && Edge(g, b, z)
      ensures z in s
    {
      UnrootedOwner(ts, threads, b.id, z);
    }
    ClosedContains(g, s, a, y);
    LinksOfSpace(ts, threads, y.id, y);
  }

  lemma UnrootedOwner(ts: Spaces, threads: Threads, x: Id, z: D.Holder)
    requires Ledger(ts, multiset{}) && x in ts && x != UTS && !RootedHolder(ts, InSpace(x))
    requires Edge(Links(ts, threads), D.Space(x), z)
    ensures z.Space? && z.id in ts && z.id != UTS && !RootedHolder(ts, InSpace(z.id))
  {
    hide Reaches, RootedHolder, Links, Ledger;
    LinksOfSpace(ts, threads, x, z);
    var h :| h in ts[x].refs && z == Named(h);
    assert Edge(Owners(ts), InSpace(x), h);
    if RootedHolder(ts, h) {
      RootedBefore(ts, InSpace(x), h);
    } else {
      if IsRoot(h) {
        RootIsRooted(ts, h);
      }
      if h.id !in ts {
        NoDeletedOwner(ts, InSpace(x), h);
      }
    }
  }

  lemma UnheldTest(ts: Spaces, ts': Spaces, threads: Threads, blocked: set<D.Holder>, t: Id)
    requires AllRooted(ts) && OnlyDropped(ts, ts', t) && Ledger(ts', multiset{}) && !Rooted(ts', t)
    ensures var g, refs := Links(ts', threads), NamedAll(ts'[t].refs);
      && !D.AnyActive(g, blocked, refs) && !D.AnyMissing(g, refs)
      && (D.AnyCycle(g, refs) <==> refs != [])
  {
    hide Reaches, Links, Ledger, AllRooted;
    var g, refs := Links(ts', threads), NamedAll(ts'[t].refs);
    assert !RootedHolder(ts', InSpace(t));
    forall x, y | x in refs && Reaches(g, x, y)
      ensures y.Space? && y in g
    {
      FirstOwner(ts', threads, t, x);
      NobodyFound(ts', threads, t, x, y);
    }
    if refs != [] {
      var x := refs[0];
      FirstOwner(ts', threads, t, x);
      OwnersWentThrough(ts, ts', t, x.id);
      SameWays(ts', threads, x.id, t);
      ReachesSelf(g, x);
      ReachesLast(g, x, D.Space(t), x);
      BackToStart(g, x, D.Space(t));
    }
  }

  lemma FirstOwner(ts: Spaces, threads: Threads, t: Id, x: D.Holder)
    requires Ledger(ts, multiset{}) && t in ts && t != UTS && !RootedHolder(ts, InSpace(t)) && x in NamedAll(ts[t].refs)
    ensures Edge(Links(ts, threads), D.Space(t), x)
    ensures x.Space? && x.id in ts && x.id != UTS && !RootedHolder(ts, InSpace(x.id))
  {
    hide Reaches, RootedHolder, Links, Ledger;
    var i :| 0 <= i < |NamedAll(ts[t].refs)| && NamedAll(ts[t].refs)[i] == x;
    assert ts[t].refs[i] in ts[t].refs && x == Named(ts[t].refs[i]);
    LinksOfSpace(ts, threads, t, x);
    UnrootedOwner(ts, threads, t, x);
  }

  lemma BackToStart(g: D.Holders, x: D.Holder, t: D.Holder)
    requires Reaches(g, x, t) && Edge(g, t, x)
    ensures D.ReachesCycle(g, x)
  {
    hide Reaches;
    ReachesSelf(g, x);
    ReachesFirst(g, t, x, t);
    assert D.OnCycle(g, t);
  }

  /** A reference is dropped after which nothing holds t any more. The deadlock test ends exactly if no space
      refers to t either: a space that still does is on a cycle through t, on which the test goes on for ever,
      so that the garbage collection is not reached. */
  lemma UnheldGoesOnExactly(ts: Spaces, ts': Spaces, threads: Threads, blocked: set<D.Holder>, t: Id)
    requires AllRooted(ts) && OnlyDropped(ts, ts', t) && Ledger(ts', multiset{}) && !Rooted(ts', t)
    ensures GoesOn(ts', threads, blocked, t) <==> ts'[t].refs == []
    ensures !Fails(ts', threads, blocked, t)
  {
    hide Links, Ledger, AllRooted, Rooted, D.EndsWith, D.AnyReaches, D.AnyCycle;
    UnheldTest(ts, ts', threads, blocked, t);
    LinksWellformed(ts', threads);
    D.AnswersExactly(Links(ts', threads), blocked, NamedAll(ts'[t].refs));
    assert |NamedAll(ts'[t].refs)| == |ts'[t].refs|;
  }

  /** Whenever the garbage collection is reached, it finds a root or no references at all: it never has a
      cycle to collect. */
  lemma NoCycleIsCollected(ts: Spaces, ts': Spaces, threads: Threads, blocked: set<D.Holder>, t: Id)
    requires AllRooted(ts) && OnlyDropped(ts, ts', t) && Ledger(ts', multiset{}) && GoesOn(ts', threads, blocked, t)
    ensures (if Rooted(ts', t) then ts' else ts'[t := Space([], ts'[t].tuples)]) == ts'
  {
    hide Ledger, AllRooted, Rooted, GoesOn, Fails;
    if !Rooted(ts', t) {
      UnheldGoesOnExactly(ts, ts', threads, blocked, t);
    }
  }

  // ---- Any removal ---------------------------------------------------------------------------------

  /** Every process that refers to a space is registered. */
  ghost predicate AllRegistered(ts: Spaces, threads: Threads, but: set<nat>) {
    forall x, p :: x in ts && Process(p) in ts[x].refs ==> p in threads || p in but
  }

  /** Where nothing is owed, all that the walk can miss is a process that is not registered. */
  lemma MissingIs(ts: Spaces, threads: Threads, but: set<nat>, a: D.Holder, y: D.Holder)
    requires Ledger(ts, multiset{}) && AllRegistered(ts, threads, but) && Edge(Links(ts, threads), a, y) && D.Missing(Links(ts, threads), y)
    ensures y.Process? && y.pid in but
  {
    hide Ledger, Links;
    LinksComeFrom(ts, threads, a, y);
    LinksOfSpace(ts, threads, a.id, y);
    var h :| h in ts[a.id].refs && y == Named(h);
    assert Edge(Owners(ts), InSpace(a.id), h);
    if h.Process? {
      RegisteredIsThere(ts, threads, h.pid);
    } else {
      if h.id !in ts {
        NoDeletedOwner(ts, InSpace(a.id), h);
      }
      LinksOfSpace(ts, threads, h.id, y);
    }
  }

  lemma RegisteredIsThere(ts: Spaces, threads: Threads, p: nat)
    ensures D.Process(p) in Links(ts, threads) <==> p in threads
  {
  }

  lemma MissingFound(ts: Spaces, threads: Threads, but: set<nat>, t: Id)
    requires Ledger(ts, multiset{}) && AllRegistered(ts, threads, but) && t in ts && t != UTS
    ensures D.AnyMissing(Links(ts, threads), NamedAll(ts[t].refs)) ==>
      exists p :: p in but && p !in threads && Reaches(Links(ts, threads), D.Space(t), D.Process(p))
  {
    hide Reaches, Ledger, Links;
    var g, refs := Links(ts, threads), NamedAll(ts[t].refs);
    if D.AnyMissing(g, refs) {
      var x, y :| x in refs && Reaches(g, x, y) && D.Missing(g, y);
      var i :| 0 <= i < |refs| && refs[i] == x;
      assert ts[t].refs[i] in ts[t].refs && x == Named(ts[t].refs[i]);
      LinksOfSpace(ts, threads, t, x);
      ReachesFirst(g, D.Space(t), x, y);
      var z := LastEdge(g, D.Space(t), y);
      MissingIs(ts, threads, but, z, y);
      RegisteredIsThere(ts, threads, y.pid);
    }
  }

  lemma FirstIsRef(ts: Spaces, threads: Threads, t: Id, p: nat)
    requires t in ts && t != UTS && p !in threads && Reaches(Links(ts, threads), D.Space(t), D.Process(p))
    ensures D.AnyMissing(Links(ts, threads), NamedAll(ts[t].refs))
  {
    hide Reaches, Links;
    var g := Links(ts, threads);
    RegisteredIsThere(ts, threads, p);
    var x := D.FirstEdge(g, D.Space(t), D.Process(p));
    LinksOfSpace(ts, threads, t, x);
    var h :| h in ts[t].refs && x == Named(h);
    var i :| 0 <= i < |ts[t].refs| && ts[t].refs[i] == h;
    assert NamedAll(ts[t].refs)[i] == x;
    assert D.Process(p) in D.Absent(g) && D.ReachesAny(g, D.Absent(g), x);
  }

  /** Dropping a reference while all processes are registered: it goes on to the garbage collection exactly if
      somebody active is found or there is no cycle of owners; it never fails. */
  lemma GoesOnExactly(ts: Spaces, threads: Threads, blocked: set<D.Holder>, t: Id)
    requires Ledger(ts, multiset{}) && AllRegistered(ts, threads, {}) && t in ts && t != UTS
    ensures var g, refs := Links(ts, threads), NamedAll(ts[t].refs);
      GoesOn(ts, threads, blocked, t) <==> D.AnyActive(g, blocked, refs) || !D.AnyCycle(g, refs)
    ensures !Fails(ts, threads, blocked, t)
  {
    hide Links, Ledger, AllRegistered, D.EndsWith, D.AnyReaches, D.AnyCycle;
    MissingFound(ts, threads, {}, t);
    LinksWellformed(ts, threads);
    D.OutcomesAreRight(Links(ts, threads), blocked, NamedAll(ts[t].refs));
    D.AnswersExactly(Links(ts, threads), blocked, NamedAll(ts[t].refs));
  }

  /** A process has left, so that it is no longer registered, and its references to t were dropped. Unless
      somebody active is found, the test fails exactly if t still leads to that process, through another space
      that it refers to; and where both can be reached the nearer decides. */
  lemma DepartureFails(ts: Spaces, threads: Threads, blocked: set<D.Holder>, t: Id, pid: nat)
    requires Ledger(ts, multiset{}) && AllRegistered(ts, threads, {pid}) && pid !in threads && t in ts && t != UTS
    ensures var g, refs := Links(ts, threads), NamedAll(ts[t].refs);
      && (!D.AnyActive(g, blocked, refs) ==> (Fails(ts, threads, blocked, t) <==> Reaches(g, D.Space(t), D.Process(pid))))
      && forall n :: D.Near(g, D.Absent(g), refs, [], n) && !D.Near(g, D.Actives(blocked), refs, [], n) ==> Fails(ts, threads, blocked, t)
  {
    hide Links, Ledger, AllRegistered, D.EndsWith, D.AnyReaches, D.AnyCycle, D.Near, Reaches;
    var g, refs := Links(ts, threads), NamedAll(ts[t].refs);
    MissingFound(ts, threads, {pid}, t);
    if Reaches(g, D.Space(t), D.Process(pid)) {
      FirstIsRef(ts, threads, t, pid);
    }
    LinksWellformed(ts, threads);
    D.AnswersExactly(g, blocked, refs);
    forall n
      ensures D.Near(g, D.Absent(g), refs, [], n) && !D.Near(g, D.Actives(blocked), refs, [], n) ==> D.EndsWith(g, blocked, refs, D.KeyError)
    {
      D.NearestDecides(g, blocked, refs, n);
    }
  }

  /** Inside the destructor of a space that is gone: while another of its references to z is not dropped yet and
      comes first, the test of z fails, so that z keeps that reference. */
  lemma DeletedOwnerFails(ts: Spaces, threads: Threads, blocked: set<D.Holder>, z: Id, t: Id)
    requires z in ts && t !in ts && t != UTS && ts[z].refs != [] && ts[z].refs[0] == InSpace(t)
    ensures Fails(ts, threads, blocked, z)
  {
    var g, refs := Links(ts, threads), NamedAll(ts[z].refs);
    assert refs[0] == D.Space(t) && D.Space(t) !in g;
    assert D.Rounds(g, blocked, refs, {}, 1) == Some(D.KeyError);
  }

  /** A process refers to two spaces, of which the first mentions the second. It leaves, and the second is looked
      at first. */
  const TWO: Spaces := map[1 := Space([Process(0)], [[SpaceRef(2)]]), 2 := Space([Process(0), InSpace(1)], [])]

  const ONE_LEFT: Spaces := map[1 := Space([Process(0)], [[SpaceRef(2)]]), 2 := Space([InSpace(1)], [])]

  lemma TwoDropped()
    ensures DroppedAll(TWO, 2, Process(0)) == ONE_LEFT
  {
    var refs := [Process(0), InSpace(1)];
    assert refs[1..] == [InSpace(1)] && [InSpace(1)][1..] == [];
    assert RemoveAll([InSpace(1)], Process(0)) == [InSpace(1)] + [];
    assert RemoveAll(refs, Process(0)) == [] + [InSpace(1)];
    hide RemoveAll;
    var ts := DroppedAll(TWO, 2, Process(0));
    assert ts.Keys == {1, 2} && ts[1] == ONE_LEFT[1] && ts[2] == ONE_LEFT[2];
  }

  lemma OneMention()
    ensures MentionsOf([[SpaceRef(2)]]) == [2] && MentionsOf([]) == []
  {
    assert [SpaceRef(2)][1..] == [] && [[SpaceRef(2)]][1..] == [];
    assert Mentions([SpaceRef(2)]) == [2] + [];
  }

  lemma TwoStored(s: Id, t: Id)
    ensures Stored(TWO, s, t) == if s == 1 && t == 2 then 1 else 0
  {
    OneMention();
    hide MentionsOf;
  }

  lemma TwoLedger()
    ensures Ledger(TWO, multiset{})
  {
    hide Stored;
    forall s: Id, t: Id | t in TWO && t != UTS
      ensures multiset(TWO[t].refs)[InSpace(s)] == Stored(TWO, s, t) + multiset{}[(s, t)]
    {
      TwoStored(s, t);
      if t == 1 {
        assert multiset(TWO[t].refs) == multiset{Process(0)};
      } else {
        assert multiset(TWO[t].refs) == multiset{Process(0), InSpace(1)};
      }
    }
  }

  lemma TwoRooted()
    ensures AllRooted(TWO)
  {
    forall x | x in TWO
      ensures Rooted(TWO, x)
    {
      assert Process(0) in TWO[x].refs by {
        assert TWO[x].refs[0] == Process(0);
      }
      assert Edge(Owners(TWO), InSpace(x), Process(0));
      ReachesSelf(Owners(TWO), Process(0));
      hide Reaches;
      ReachesFirst(Owners(TWO), InSpace(x), Process(0), Process(0));
    }
  }

  lemma LeavingTwoSpacesFails(blocked: set<D.Holder>)
    ensures Ledger(TWO, multiset{}) && AllRooted(TWO)
    ensures 2 in DroppedAll(TWO, 2, Process(0)) && Fails(DroppedAll(TWO, 2, Process(0)), map[], blocked, 2)
  {
    hide Ledger, AllRooted, DroppedAll, Fails;
    TwoLedger();
    TwoRooted();
    TwoDropped();
    OneLeftFails(blocked);
  }

  lemma OneLeftFails(blocked: set<D.Holder>)
    ensures Fails(ONE_LEFT, map[], blocked, 2)
  {
    var g: D.Holders := Links(ONE_LEFT, map[]);
    assert NamedAll(ONE_LEFT[2].refs) == [D.Space(1)] && NamedAll(ONE_LEFT[1].refs) == [D.Process(0)];
    assert D.Space(1) in g && g[D.Space(1)] == [D.Process(0)] && D.Process(0) !in g;
    hide Links;
    assert [D.Space(1)][1..] + [D.Process(0)] == [D.Process(0)];
    assert D.Rounds(g, blocked, [D.Process(0)], {}, 1) == Some(D.KeyError);
    assert D.Rounds(g, blocked, [D.Space(1)], {}, 2) == Some(D.KeyError);
  }
}
