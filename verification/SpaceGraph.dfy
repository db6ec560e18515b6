/** Tuple spaces as seen by their garbage collection: who holds references to a space, and which
    spaces the tuples stored in it mention. */
module SpaceGraph {
  import opened Graphs

  type Id = nat
  /** The universal tuple space, which is never collected. */
  const UTS: Id := 0

  /** The owner of a reference: a process, or a tuple space one of whose tuples mentions the space. */
  datatype Holder = Process(pid: nat) | InSpace(id: Id)

  /** An element of a tuple: a reference to a tuple space, or something else. */
  datatype Element = SpaceRef(id: Id) | Other(v: int)
  type Tup = seq<Element>

  datatype Space = Space(refs: seq<Holder>, tuples: seq<Tup>)
  type Spaces = map<Id, Space>

  /** The spaces a tuple mentions at its top level, the universal one aside. */
  function Mentions(tup: Tup): seq<Id> {
    if tup == [] then [] else
      (if tup[0].SpaceRef? && tup[0].id != UTS then [tup[0].id] else []) + Mentions(tup[1..])
  }

  function MentionsOf(tuples: seq<Tup>): seq<Id> {
    if tuples == [] then [] else Mentions(tuples[0]) + MentionsOf(tuples[1..])
  }

  /** A space is mentioned as often as references to it are elements of the tuple. */
  lemma {:induction false} MentionsCount(tup: Tup, t: Id)
    ensures multiset(Mentions(tup))[t] == if t == UTS then 0 else multiset(tup)[SpaceRef(t)]
  {
    if tup != [] {
      MentionsCount(tup[1..], t);
      assert tup == [tup[0]] + tup[1..];
    }
  }

  /** Each stored tuple contributes what it mentions. */
  lemma {:induction false} MentionsOfOne(tuples: seq<Tup>, i: nat)
    requires i < |tuples|
    ensures multiset(MentionsOf(tuples)) == multiset(Mentions(tuples[i])) + multiset(MentionsOf(tuples[..i] + tuples[i + 1..]))
  {
    hide Mentions;
    if i == 0 {
      assert tuples[..0] + tuples[1..] == tuples[1..];
    } else {
      MentionsOfOne(tuples[1..], i - 1);
      var rest := tuples[..i] + tuples[i + 1..];
      assert rest[0] == tuples[0] && rest[1..] == tuples[1..][..i - 1] + tuples[1..][i..];
    }
  }

  function RemoveFirst(refs: seq<Holder>, h: Holder): seq<Holder> {
    if refs == [] then [] else if refs[0] == h then refs[1..] else [refs[0]] + RemoveFirst(refs[1..], h)
  }

  function RemoveAll(refs: seq<Holder>, h: Holder): seq<Holder> {
    if refs == [] then [] else (if refs[0] == h then [] else [refs[0]]) + RemoveAll(refs[1..], h)
  }

  lemma {:induction false} RemoveFirstCounts(refs: seq<Holder>, h: Holder)
    ensures multiset(RemoveFirst(refs, h)) == multiset(refs) - multiset{h}
  {
    if refs != [] {
      assert refs == [refs[0]] + refs[1..];
      if refs[0] != h {
        RemoveFirstCounts(refs[1..], h);
      }
    }
  }

  lemma {:induction false} RemoveAllCounts(refs: seq<Holder>, h: Holder)
    ensures multiset(RemoveAll(refs, h)) == multiset(refs)[h := 0]
  {
    if refs != [] {
      assert refs == [refs[0]] + refs[1..];
      RemoveAllCounts(refs[1..], h);
    }
  }

  /** From each space to the owners of its references. */
  ghost function Owners(ts: Spaces): map<Holder, seq<Holder>> {
    map h | h in (set x | x in ts :: InSpace(x)) :: ts[h.id].refs
  }

  /** Processes and the universal space keep what they hold. */
  predicate IsRoot(h: Holder) {
    h.Process? || h.id == UTS
  }

  ghost predicate Rooted(ts: Spaces, x: Id) {
    exists h :: IsRoot(h) && Reaches(Owners(ts), InSpace(x), h)
  }

  /** Following owners from x leads to a root, to a space that is gone, or to the space t. */
  ghost predicate Anchored(ts: Spaces, x: Id, t: set<Id>) {
    exists h :: IsEnd(ts, h, t) && Reaches(Owners(ts), InSpace(x), h)
  }

  ghost predicate IsEnd(ts: Spaces, h: Holder, t: set<Id>) {
    IsRoot(h) || h.id !in ts || h.id in t
  }

  ghost predicate AllAnchored(ts: Spaces, t: set<Id>) {
    forall x :: x in ts ==> Anchored(ts, x, t)
  }

  ghost predicate AllRooted(ts: Spaces) {
    forall x :: x in ts ==> Rooted(ts, x)
  }

  /** How often the tuples of space s mention t. */
  ghost function Stored(ts: Spaces, s: Id, t: Id): nat {
    if s in ts then multiset(MentionsOf(ts[s].tuples))[t] else 0
  }

  /** The references to t owned by space s are the mentions of t in s, plus those owed: references of s
      whose tuple has already left s. */
  ghost predicate Ledger(ts: Spaces, owed: multiset<(Id, Id)>) {
    forall s: Id, t: Id :: t in ts && t != UTS ==>
      multiset(ts[t].refs)[InSpace(s)] == Stored(ts, s, t) + owed[(s, t)]
  }

  /** The ledger, with t left out. */
  ghost predicate LedgerBut(ts: Spaces, owed: multiset<(Id, Id)>, t: Id) {
    forall s: Id, u: Id :: u in ts && u != UTS && u != t ==>
      multiset(ts[u].refs)[InSpace(s)] == Stored(ts, s, u) + owed[(s, u)]
  }

  /** What is left is held by each process as often as it was. */
  ghost predicate SameProcesses(ts: Spaces, ts': Spaces) {
    forall x, p :: x in ts && x in ts' ==> multiset(ts'[x].refs)[Process(p)] == multiset(ts[x].refs)[Process(p)]
  }

  /** ts' lost spaces and references of ts, but every way from a space to a root and every reference of a
      process to what is left is still there. */
  ghost predicate Keeps(ts: Spaces, ts': Spaces) {
    && (forall x :: x in ts' ==> x in ts && ts'[x].tuples == ts[x].tuples && multiset(ts'[x].refs) <= multiset(ts[x].refs))
    && (forall x, h :: x in ts && IsRoot(h) && Reaches(Owners(ts), InSpace(x), h) ==>
          x in ts' && Reaches(Owners(ts'), InSpace(x), h))
    && SameProcesses(ts, ts')
  }

  lemma KeepsSelf(ts: Spaces)
    ensures Keeps(ts, ts)
  {
  }

  lemma KeepsTransitive(ts: Spaces, ts': Spaces, ts'': Spaces)
    requires Keeps(ts, ts') && Keeps(ts', ts'')
    ensures Keeps(ts, ts'')
  {
    hide Reaches;
  }

  lemma KeepsSubGraph(ts: Spaces, ts': Spaces)
    requires forall x :: x in ts' ==> x in ts && multiset(ts'[x].refs) <= multiset(ts[x].refs)
    ensures SubGraph(Owners(ts'), Owners(ts))
  {
    forall a, b | Edge(Owners(ts'), a, b)
      ensures Edge(Owners(ts), a, b)
    {
      assert b in multiset(ts'[a.id].refs);
      assert b in multiset(ts[a.id].refs);
    }
  }

  /** The nodes from which an end can be reached. */
  ghost predicate Ending(ts: Spaces, t: set<Id>, a: Holder) {
    exists h :: IsEnd(ts, h, t) && Reaches(Owners(ts), a, h)
  }

  lemma EndEnds(ts: Spaces, t: set<Id>, h: Holder)
    requires IsEnd(ts, h, t)
    ensures Ending(ts, t, h)
  {
    ReachesSelf(Owners(ts), h);
  }

  lemma EndingBefore(ts: Spaces, t: set<Id>, a: Holder, b: Holder)
    requires Edge(Owners(ts), a, b) && Ending(ts, t, b)
    ensures Ending(ts, t, a)
  {
    var h :| IsEnd(ts, h, t) && Reaches(Owners(ts), b, h);
    ReachesFirst(Owners(ts), a, b, h);
  }

  /** If nothing but t changed, ways to an end still lead to an end, or to t. */
  lemma AnchorsElsewhere(ts: Spaces, ts': Spaces, e: set<Id>, e': set<Id>, t: Id)
    requires AllAnchored(ts, e) && ts'.Keys <= ts.Keys
    requires forall h :: IsEnd(ts, h, e) ==> IsEnd(ts', h, e')
    requires IsEnd(ts', InSpace(t), e')
    requires forall x :: x in ts && x != t ==> x in ts' && ts'[x].refs == ts[x].refs
    ensures AllAnchored(ts', e')
  {
    var s := iset a | Ending(ts', e', a);
    forall a, b | b in s && Edge(Owners(ts), a, b)
      ensures a in s
    {
      if a == InSpace(t) {
        EndEnds(ts', e', a);
      } else {
        assert Edge(Owners(ts'), a, b);
        EndingBefore(ts', e', a, b);
      }
    }
    forall x | x in ts'
      ensures Anchored(ts', x, e')
    {
      var h :| IsEnd(ts, h, e) && Reaches(Owners(ts), InSpace(x), h);
      EndEnds(ts', e', h);
      ReachesBackwards(Owners(ts), s, InSpace(x), h);
    }
  }

  /** A rooted space need not be an end. */
  lemma AnchorsThroughRooted(ts: Spaces, t: Id)
    requires AllAnchored(ts, {t}) && Rooted(ts, t)
    ensures AllAnchored(ts, {})
  {
    var r :| IsRoot(r) && Reaches(Owners(ts), InSpace(t), r);
    forall x | x in ts
      ensures Anchored(ts, x, {})
    {
      var h :| IsEnd(ts, h, {t}) && Reaches(Owners(ts), InSpace(x), h);
      if h == InSpace(t) {
        ReachesTransitive(Owners(ts), InSpace(x), h, r);
        assert IsEnd(ts, r, {});
      } else {
        assert IsEnd(ts, h, {});
      }
    }
  }

  lemma UnrootedHasNoProcess(ts: Spaces, t: Id)
    requires t in ts && !Rooted(ts, t)
    ensures forall p :: multiset(ts[t].refs)[Process(p)] == 0
  {
    forall p
      ensures multiset(ts[t].refs)[Process(p)] == 0
    {
      if Process(p) in multiset(ts[t].refs) {
        assert Edge(Owners(ts), InSpace(t), Process(p));
        ReachesSelf(Owners(ts), Process(p));
        ReachesFirst(Owners(ts), InSpace(t), Process(p), Process(p));
      }
    }
  }

  /** Changing or deleting a space that is not rooted leaves every way to a root as it was. */
  lemma UnrootedKeeps(ts: Spaces, ts': Spaces, t: Id)
    requires !Rooted(ts, t)
    requires forall x :: x in ts && x != t ==> x in ts' && ts'[x] == ts[x]
    requires forall x :: x in ts' ==> x in ts && ts'[x].tuples == ts[x].tuples && multiset(ts'[x].refs) <= multiset(ts[x].refs)
    ensures Keeps(ts, ts')
  {
    if t in ts && t in ts' {
      UnrootedHasNoProcess(ts, t);
    }
    forall x, h | x in ts && IsRoot(h) && Reaches(Owners(ts), InSpace(x), h)
      ensures x in ts' && Reaches(Owners(ts'), InSpace(x), h)
    {
      var s := iset a | Reaches(Owners(ts'), a, h);
      ReachesSelf(Owners(ts'), h);
      KeepsSubGraph(ts, ts');
      forall a, b | b in s && Edge(Owners(ts), a, b)
        ensures a in s
      {
        ReachesMonotone(Owners(ts'), Owners(ts), b, h);
        ReachesFirst(Owners(ts), a, b, h);
        assert Edge(Owners(ts'), a, b);
        ReachesFirst(Owners(ts'), a, b, h);
      }
      ReachesBackwards(Owners(ts), s, InSpace(x), h);
    }
  }

  /** Ways that do not end at a node without owners need no edge to it. */
  lemma WayAround(ts: Spaces, ts': Spaces, z: Id, gone: Holder, a: Holder, h: Holder)
    requires gone !in Owners(ts') && h != gone && Reaches(Owners(ts), a, h)
    requires z in ts && z in ts' && forall b :: b in ts[z].refs && b != gone ==> b in ts'[z].refs
    requires forall x :: x in ts && x != z ==> x in ts' && ts'[x].refs == ts[x].refs
    ensures Reaches(Owners(ts'), a, h)
  {
    var s := iset n | Reaches(Owners(ts'), n, h);
    ReachesSelf(Owners(ts'), h);
    forall x, y | y in s && Edge(Owners(ts), x, y)
      ensures x in s
    {
      if y == gone {
        ClosedContains(Owners(ts'), {y}, y, h);
      }
      assert Edge(Owners(ts'), x, y);
      ReachesFirst(Owners(ts'), x, y, h);
    }
    ReachesBackwards(Owners(ts), s, a, h);
  }

  /** The pairs of s with each of zs. */
  ghost function Pairs(s: Id, zs: seq<Id>): multiset<(Id, Id)> {
    if zs == [] then multiset{} else multiset{(s, zs[0])} + Pairs(s, zs[1..])
  }

  lemma {:induction false} PairsCount(s: Id, zs: seq<Id>, a: Id, b: Id)
    ensures Pairs(s, zs)[(a, b)] == if a == s then multiset(zs)[b] else 0
  {
    if zs != [] {
      PairsCount(s, zs[1..], a, b);
      assert zs == [zs[0]] + zs[1..];
    }
  }

  lemma {:induction false} PairsJoin(s: Id, xs: seq<Id>, ys: seq<Id>)
    ensures Pairs(s, xs + ys) == Pairs(s, xs) + Pairs(s, ys)
  {
    if xs == [] {
      assert xs + ys == ys;
    } else {
      assert (xs + ys)[1..] == xs[1..] + ys;
      PairsJoin(s, xs[1..], ys);
    }
  }

  /** When space t goes, it owes all its references. */
  lemma LedgerDelete(ts: Spaces, owed: multiset<(Id, Id)>, t: Id)
    requires LedgerBut(ts, owed, t) && t in ts
    ensures Ledger(ts - {t}, owed + Pairs(t, MentionsOf(ts[t].tuples)))
  {
    hide MentionsOf, Pairs;
    var ts' := ts - {t};
    forall s: Id, u: Id | u in ts' && u != UTS
      ensures multiset(ts'[u].refs)[InSpace(s)] == Stored(ts', s, u) + (owed + Pairs(t, MentionsOf(ts[t].tuples)))[(s, u)]
    {
      PairsCount(t, MentionsOf(ts[t].tuples), s, u);
      assert multiset(ts[u].refs)[InSpace(s)] == Stored(ts, s, u) + owed[(s, u)];
    }
  }

  lemma NoDeletedOwner(ts: Spaces, y: Holder, h: Holder)
    requires Ledger(ts, multiset{}) && Edge(Owners(ts), y, h) && h.InSpace? && h.id !in ts
    ensures y == InSpace(UTS)
  {
    hide MentionsOf;
    assert h in multiset(ts[y.id].refs);
    assert multiset(ts[y.id].refs)[h] > 0;
  }

  /** With nothing owed, no reference belongs to a deleted space, so every end is a root. */
  lemma NothingOwedAllRooted(ts: Spaces)
    requires Ledger(ts, multiset{}) && AllAnchored(ts, {})
    ensures AllRooted(ts)
  {
    forall x | x in ts
      ensures Rooted(ts, x)
    {
      var h :| IsEnd(ts, h, {}) && Reaches(Owners(ts), InSpace(x), h);
      if !IsRoot(h) {
        var y := LastEdge(Owners(ts), InSpace(x), h);
        NoDeletedOwner(ts, y, h);
      }
    }
  }

  lemma RootedIsAnchored(ts: Spaces)
    requires AllRooted(ts)
    ensures AllAnchored(ts, {})
  {
    forall x | x in ts
      ensures Anchored(ts, x, {})
    {
      var h :| IsRoot(h) && Reaches(Owners(ts), InSpace(x), h);
      assert IsEnd(ts, h, {});
    }
  }
}
