/** Reference removal and the garbage collection of tuple spaces (linda/src/linda/tscontainer.py,
    linda/src/linda/tuplespace.py, linda/src/linda/utils.py). */
module TupleSpaceContainer {
  import opened Graphs
  import opened SpaceGraph

  /** ts after one reference of h to t was removed. */
  function Dropped(ts: Spaces, t: Id, h: Holder): Spaces {
    if t in ts && t != UTS then ts[t := Space(RemoveFirst(ts[t].refs, h), ts[t].tuples)] else ts
  }

  /** ts after all references of h to t were removed. */
  function DroppedAll(ts: Spaces, t: Id, h: Holder): Spaces {
    if t in ts && t != UTS then ts[t := Space(RemoveAll(ts[t].refs, h), ts[t].tuples)] else ts
  }

  /** The ledger survives a change to the references of t that the debts follow. */
  lemma LedgerFollows(ts: Spaces, owed: multiset<(Id, Id)>, t: Id, refs: seq<Holder>, owed': multiset<(Id, Id)>)
    requires Ledger(ts, owed) && t in ts
    requires forall s: Id :: multiset(refs)[InSpace(s)] + owed[(s, t)] == multiset(ts[t].refs)[InSpace(s)] + owed'[(s, t)]
    requires forall s: Id, u: Id :: u != t ==> owed'[(s, u)] == owed[(s, u)]
    ensures Ledger(ts[t := Space(refs, ts[t].tuples)], owed')
  {
    hide MentionsOf;
    var ts' := ts[t := Space(refs, ts[t].tuples)];
    forall s: Id, u: Id | u in ts' && u != UTS
      ensures multiset(ts'[u].refs)[InSpace(s)] == Stored(ts', s, u) + owed'[(s, u)]
    {
      assert multiset(ts[u].refs)[InSpace(s)] == Stored(ts, s, u) + owed[(s, u)];
      assert Stored(ts', s, u) == Stored(ts, s, u);
    }
  }

  lemma DroppedLedger(ts: Spaces, owed: multiset<(Id, Id)>, t: Id, h: Holder)
    requires Ledger(ts, owed) && t in ts && t != UTS && h in ts[t].refs
    requires h.InSpace? ==> (h.id, t) in owed
    ensures Ledger(Dropped(ts, t, h), if h.InSpace? then owed - multiset{(h.id, t)} else owed)
  {
    hide MentionsOf, RemoveFirst, Ledger;
    RemoveFirstCounts(ts[t].refs, h);
    assert h in multiset(ts[t].refs);
    LedgerFollows(ts, owed, t, RemoveFirst(ts[t].refs, h), if h.InSpace? then owed - multiset{(h.id, t)} else owed);
  }

  lemma LedgerForgets(ts: Spaces, owed: multiset<(Id, Id)>, t: Id, h: Holder)
    requires Ledger(ts, owed) && (t !in ts || t == UTS)
    ensures Ledger(ts, if h.InSpace? then owed - multiset{(h.id, t)} else owed)
  {
    hide MentionsOf, Stored;
    var owed' := if h.InSpace? then owed - multiset{(h.id, t)} else owed;
    assert forall s: Id, u: Id :: u != t ==> owed'[(s, u)] == owed[(s, u)];
  }

  lemma OwedIsReferred(ts: Spaces, owed: multiset<(Id, Id)>, t: Id, h: Holder)
    requires Ledger(ts, owed) && h.InSpace? && (h.id, t) in owed && t in ts && t != UTS
    ensures h in ts[t].refs
  {
    hide MentionsOf;
    assert multiset(ts[t].refs)[h] == Stored(ts, h.id, t) + owed[(h.id, t)];
    assert h in multiset(ts[t].refs);
  }

  lemma DroppedAllLedger(ts: Spaces, owed: multiset<(Id, Id)>, t: Id, pid: nat)
    requires Ledger(ts, owed) && t in ts && t != UTS
    ensures Ledger(DroppedAll(ts, t, Process(pid)), owed)
  {
    hide MentionsOf, RemoveAll, Ledger;
    RemoveAllCounts(ts[t].refs, Process(pid));
    LedgerFollows(ts, owed, t, RemoveAll(ts[t].refs, Process(pid)), owed);
  }

  lemma DroppedAnchored(ts: Spaces, ts': Spaces, t: Id)
    requires AllAnchored(ts, {}) && t in ts && ts'.Keys == ts.Keys
    requires forall x :: x in ts && x != t ==> ts'[x] == ts[x]
    ensures AllAnchored(ts', {t})
  {
    AnchorsElsewhere(ts, ts', {}, {t}, t);
  }

  /** All owners named anywhere. */
  ghost function Universe(ts: Spaces): set<Holder> {
    set x, i | x in ts && 0 <= i < |ts[x].refs| :: ts[x].refs[i]
  }

  ghost function Unseen(ts: Spaces, memo: seq<Holder>): set<Holder> {
    set h | h in Universe(ts) && h !in memo
  }

  ghost predicate Searched(ts: Spaces, t: Id, memo: seq<Holder>, toCheck: seq<Holder>)
  {
    && (forall h :: h in memo || h in toCheck ==> Reaches(Owners(ts), InSpace(t), h))
    && (forall h :: h in toCheck ==> h in Universe(ts))
    && (forall h :: h in memo ==> !IsRoot(h))
    && InSpace(t) in memo
    && (forall a, b :: a in memo && Edge(Owners(ts), a, b) ==> b in memo || b in toCheck)
  }

  lemma SearchedAll(ts: Spaces, t: Id, memo: seq<Holder>)
    requires Searched(ts, t, memo, [])
    ensures !Rooted(ts, t)
  {
    if Rooted(ts, t) {
      var h :| IsRoot(h) && Reaches(Owners(ts), InSpace(t), h);
      var seen := set x | x in memo;
      ClosedContains(Owners(ts), seen, InSpace(t), h);
    }
  }

  lemma SearchedStart(ts: Spaces, t: Id)
    requires t in ts && t != UTS
    ensures Searched(ts, t, [InSpace(t)], ts[t].refs)
  {
    ReachesSelf(Owners(ts), InSpace(t));
    forall h | h in ts[t].refs
      ensures Reaches(Owners(ts), InSpace(t), h)
    {
      assert Edge(Owners(ts), InSpace(t), h);
      ReachesFirst(Owners(ts), InSpace(t), h, h) by {
        ReachesSelf(Owners(ts), h);
      }
    }
  }

  lemma SearchedNext(ts: Spaces, t: Id, memo: seq<Holder>, i: Holder, rest: seq<Holder>)
    requires Searched(ts, t, memo, [i] + rest) && !IsRoot(i)
    ensures Searched(ts, t, memo + [i], rest + if i.id in ts then ts[i.id].refs else [])
  {
    var more := if i.id in ts then ts[i.id].refs else [];
    forall h | h in more
      ensures Reaches(Owners(ts), InSpace(t), h)
    {
      assert Edge(Owners(ts), i, h);
      ReachesLast(Owners(ts), InSpace(t), i, h);
    }
  }

  /** The spaces with the references to them. The deadlock test that comes before each collection is taken to
      answer; ReferenceRemoval says when it does. */
  class TupleSpaces {
    var ts: Spaces
    /** References whose tuple has left the space they belong to: (space, mentioned space). */
    ghost var owed: multiset<(Id, Id)>

    /** Searches the owners of t for a process or the universal space; empties refs if there is none. */
    method DoGarbageCollection(t: Id)
      requires t in ts && t != UTS
      modifies this`ts
      ensures if Rooted(old(ts), t) then ts == old(ts) else ts == old(ts)[t := Space([], old(ts)[t].tuples)]
    {
      var memo := [InSpace(t)];
      var toCheck := ts[t].refs;
      SearchedStart(ts, t);
      while |toCheck| > 0
        invariant ts == old(ts) && Searched(ts, t, memo, toCheck)
        decreases Unseen(ts, memo), |toCheck|
      {
        var i := toCheck[0];
        assert toCheck == [i] + toCheck[1..];
        toCheck := toCheck[1..];
        if i in memo {
          continue;
        }
        if IsRoot(i) {
          assert Rooted(ts, t);
          return;
        }
        SearchedNext(ts, t, memo, i, toCheck);
        assert i in Unseen(ts, memo) && i !in Unseen(ts, memo + [i]);
        memo := memo + [i];
        if i.id in ts {
          toCheck := toCheck + ts[i.id].refs;
        }
      }
      SearchedAll(ts, t, memo);
      ts := ts[t := Space([], ts[t].tuples)];
    }

    /** Deletes t if nobody refers to it any more, and drops the references its tuples held. */
    method Garbage(t: Id)
      requires t in ts && LedgerBut(ts, owed, t) && AllAnchored(ts, {t})
      requires if Rooted(ts, t) then Ledger(ts, owed) else ts[t].refs == []
      modifies this
      ensures Ledger(ts, owed) && owed == old(owed) && AllAnchored(ts, {}) && Keeps(old(ts), ts)
      ensures t in ts <==> old(Rooted(ts, t))
      decreases |ts|, 3, 0
    {
      hide Keeps, Anchored;
      if t == UTS {
        UniversalIsRooted(ts);
        AnchorsThroughRooted(ts, t);
        KeepsSelf(ts);
        return;
      }
      if |ts[t].refs| == 0 {
        NoOwnersNotRooted(ts, t);
        ghost var ts0 := ts;
        var tuples := ts[t].tuples;
        LedgerDelete(ts, owed, t);
        UnrootedKeeps(ts, ts - {t}, t);
        AnchorsElsewhere(ts, ts - {t}, {t}, {}, t);
        SmallerWithout(ts, t);
        ts := ts - {t};
        owed := owed + Pairs(t, MentionsOf(tuples));
        ghost var ts1 := ts;
        Destroy(t, tuples, old(owed));
        KeepsTransitive(ts0, ts1, ts);
        KeepsNothingNew(ts1, ts);
      } else {
        AnchorsThroughRooted(ts, t);
        KeepsSelf(ts);
      }
    }

    /** The destructor of t: drops the references held by its tuples. */
    method Destroy(t: Id, tuples: seq<Tup>, ghost base: multiset<(Id, Id)>)
      requires t !in ts && t != UTS
      requires Ledger(ts, owed) && AllAnchored(ts, {}) && owed == base + Pairs(t, MentionsOf(tuples))
      modifies this
      ensures Ledger(ts, owed) && owed == base && AllAnchored(ts, {}) && Keeps(old(ts), ts)
      decreases |ts|, 5
    {
      hide Keeps, AllAnchored, Ledger, Pairs;
      KeepsSelf(ts);
      var i := 0;
      assert tuples[0..] == tuples;
      while i < |tuples|
        invariant i <= |tuples|
        invariant Ledger(ts, owed) && AllAnchored(ts, {}) && Keeps(old(ts), ts) && t !in ts
        invariant owed == base + Pairs(t, MentionsOf(tuples[i..]))
      {
        ghost var ts0 := ts;
        assert tuples[i..][1..] == tuples[i + 1..];
        PairsJoin(t, Mentions(tuples[i]), MentionsOf(tuples[i + 1..]));
        KeepsFewer(old(ts), ts);
        DelReference(tuples[i], t, base + Pairs(t, MentionsOf(tuples[i + 1..])));
        KeepsTransitive(old(ts), ts0, ts);
        KeepsNothingNew(ts0, ts);
        i := i + 1;
      }
      PairsNone(t, MentionsOf(tuples[i..]));
    }

    /** Drops the references that space t held through one tuple. */
    method DelReference(tup: Tup, t: Id, ghost base: multiset<(Id, Id)>)
      requires t !in ts && t != UTS
      requires Ledger(ts, owed) && AllAnchored(ts, {}) && owed == base + Pairs(t, Mentions(tup))
      modifies this
      ensures Ledger(ts, owed) && owed == base && AllAnchored(ts, {}) && Keeps(old(ts), ts)
      decreases |ts|, 4
    {
      hide Keeps, AllAnchored, Ledger, Pairs, Mentions;
      KeepsSelf(ts);
      var i := 0;
      assert tup[0..] == tup;
      while i < |tup|
        invariant i <= |tup|
        invariant Ledger(ts, owed) && AllAnchored(ts, {}) && Keeps(old(ts), ts) && t !in ts
        invariant owed == base + Pairs(t, Mentions(tup[i..]))
      {
        MentionsNext(tup, i, t);
        if tup[i].SpaceRef? && tup[i].id != UTS {
          ghost var ts0 := ts;
          KeepsFewer(old(ts), ts);
          DropMention(tup[i].id, t, base + Pairs(t, Mentions(tup[i + 1..])));
          KeepsTransitive(old(ts), ts0, ts);
          KeepsNothingNew(ts0, ts);
        }
        i := i + 1;
      }
      MentionsNone(tup[i..], t);
    }

    /** Drops one reference held by the deleted space t. */
    method DropMention(z: Id, t: Id, ghost base: multiset<(Id, Id)>)
      requires t !in ts && t != UTS
      requires Ledger(ts, owed) && AllAnchored(ts, {}) && owed == base + multiset{(t, z)}
      modifies this
      ensures Ledger(ts, owed) && owed == base && AllAnchored(ts, {}) && Keeps(old(ts), ts)
      decreases |ts|, 3, 2
    {
      hide Keeps, AllAnchored, Ledger;
      DroppedDeadKeeps(ts, z, t);
      var ok := DeleteReference(z, InSpace(t));
      assert owed == base;
      KeepsTransitive(old(ts), Dropped(old(ts), z, InSpace(t)), ts);
    }

    /** Removes one reference of h to t, and with it every space that only t kept reachable. Fails if
        h has no reference to t. */
    method DeleteReference(t: Id, h: Holder) returns (ok: bool)
      requires Ledger(ts, owed) && AllAnchored(ts, {})
      requires h.InSpace? ==> (h.id, t) in owed
      modifies this
      ensures ok <==> t !in old(ts) || t == UTS || h in old(ts)[t].refs
      ensures h.InSpace? ==> ok
      ensures !ok ==> ts == old(ts) && owed == old(owed)
      ensures ok ==> owed == if h.InSpace? then old(owed) - multiset{(h.id, t)} else old(owed)
      ensures ok ==> Keeps(Dropped(old(ts), t, h), ts)
      ensures ok && owed == multiset{} ==> AllRooted(ts) && forall x :: x in old(ts) ==> (x in ts <==> Rooted(Dropped(old(ts), t, h), x))
      ensures Ledger(ts, owed) && AllAnchored(ts, {})
      decreases |ts|, 3, 1
    {
      hide Keeps, AllAnchored, AllRooted, Rooted, Ledger, RemoveFirst;
      KeepsSelf(ts);
      if t !in ts || t == UTS {
        LedgerForgets(ts, owed, t, h);
        owed := if h.InSpace? then owed - multiset{(h.id, t)} else owed;
        DropsExactlyTheUnrooted(ts, ts, owed);
        return true;
      }
      if h !in ts[t].refs {
        if h.InSpace? {
          OwedIsReferred(ts, old(owed), t, h);
        }
        return false;
      }
      DroppedLedger(ts, owed, t, h);
      ghost var ts1 := Dropped(ts, t, h);
      DroppedAnchored(ts, ts1, t);
      owed := if h.InSpace? then owed - multiset{(h.id, t)} else owed;
      ts := ts[t := Space(RemoveFirst(ts[t].refs, h), ts[t].tuples)];
      DoGarbageCollection(t);
      ClearedRefs(ts1, ts, owed, t);
      ghost var ts2 := ts;
      assert ts.Keys == old(ts).Keys;
      SameSize(ts, old(ts));
      Garbage(t);
      KeepsTransitive(ts1, ts2, ts);
      DropsExactlyTheUnrooted(ts1, ts, owed);
      ok := true;
    }

    /** Removes all references of a process to t. */
    method DeleteAllReferences(t: Id, pid: nat)
      requires Ledger(ts, owed) && AllAnchored(ts, {})
      modifies this
      ensures Ledger(ts, owed) && owed == old(owed) && AllAnchored(ts, {})
      ensures Keeps(DroppedAll(old(ts), t, Process(pid)), ts)
      ensures owed == multiset{} ==> AllRooted(ts) && forall x :: x in old(ts) ==> (x in ts <==> Rooted(DroppedAll(old(ts), t, Process(pid)), x))
    {
      hide Keeps, AllAnchored, AllRooted, Rooted, Ledger, RemoveAll;
      KeepsSelf(ts);
      if t !in ts || t == UTS {
        DropsExactlyTheUnrooted(ts, ts, owed);
        return;
      }
      DroppedAllLedger(ts, owed, t, pid);
      ghost var ts1 := DroppedAll(ts, t, Process(pid));
      DroppedAnchored(ts, ts1, t);
      ts := ts[t := Space(RemoveAll(ts[t].refs, Process(pid)), ts[t].tuples)];
      DoGarbageCollection(t);
      ClearedRefs(ts1, ts, owed, t);
      ghost var ts2 := ts;
      Garbage(t);
      KeepsTransitive(ts1, ts2, ts);
      DropsExactlyTheUnrooted(ts1, ts, owed);
    }

    /** A process has left: its references to all the listed spaces go, one space after another. */
    method RemoveProcess(pid: nat, keys: seq<Id>)
      requires Ledger(ts, multiset{}) && owed == multiset{} && AllRooted(ts)
      requires forall x :: x in ts ==> x in keys
      modifies this
      ensures Ledger(ts, multiset{}) && owed == multiset{} && AllRooted(ts)
      ensures forall x :: x in old(ts) ==> (x in ts <==> RootedWithout(old(ts), pid, x))
      ensures forall x :: x in ts ==> x in old(ts) && ts[x].tuples == old(ts)[x].tuples
      ensures forall x :: x in ts && x != UTS ==> Process(pid) !in ts[x].refs
    {
      hide AllRooted, AllAnchored, Ledger, KeepsWithout, RootedWithout, Cleared, Keeps;
      RootedIsAnchored(ts);
      ClearedNone(ts, keys, pid);
      KeepsWithoutSelf(ts, pid);
      var i := 0;
      while i < |keys|
        invariant i <= |keys|
        invariant Ledger(ts, owed) && owed == multiset{} && AllAnchored(ts, {})
        invariant KeepsWithout(old(ts), ts, pid)
        invariant Cleared(ts, keys[..i], pid)
      {
        ghost var ts0 := ts;
        DeleteAllReferences(keys[i], pid);
        KeepsWithoutNext(old(ts), ts0, ts, pid, keys[i]);
        ClearedNext(ts0, ts, keys, i, pid);
        i := i + 1;
      }
      assert keys[..i] == keys;
      NothingOwedAllRooted(ts);
      ClearedAll(old(ts), ts, keys, pid);
      KeepsWithoutMeans(old(ts), ts, pid);
    }

    method AddReference(t: Id, h: Holder) returns (ok: bool)
      requires Ledger(ts, owed) && AllAnchored(ts, {})
      modifies this
      ensures ok <==> t in old(ts)
      ensures ts == if ok && t != UTS then old(ts)[t := Space(old(ts)[t].refs + [h], old(ts)[t].tuples)] else old(ts)
      ensures owed == if ok && t != UTS && h.InSpace? then old(owed) + multiset{(h.id, t)} else old(owed)
      ensures Ledger(ts, owed) && AllAnchored(ts, {})
    {
      if t !in ts {
        return false;
      }
      if t != UTS {
        AddedLedger(ts, owed, t, h);
        AddedAnchored(ts, t, h);
        ts := ts[t := Space(ts[t].refs + [h], ts[t].tuples)];
        owed := if h.InSpace? then owed + multiset{(h.id, t)} else owed;
      }
      ok := true;
    }

    /** A tuple that left space cur is handed to a process: no space is deleted on the way, and the process
        holds one more reference to each space for every time that the tuple mentions it at its top level. */
    method ChangeOwner(tup: Tup, cur: Id, pid: nat, ghost base: multiset<(Id, Id)>)
      requires Ledger(ts, owed) && AllRooted(ts) && owed == base + Pairs(cur, Mentions(tup))
      requires forall k :: 0 <= k < |tup| && IsLocal(tup[k]) ==> tup[k].id in ts
      modifies this
      ensures Ledger(ts, owed) && AllRooted(ts) && owed == base
      ensures Hands(old(ts), ts, pid, Mentions(tup))
      ensures forall x :: x in ts && x != UTS ==>
        multiset(ts[x].refs)[Process(pid)] == multiset(old(ts)[x].refs)[Process(pid)] + multiset(tup)[SpaceRef(x)]
    {
      hide AllRooted, Ledger, Pairs, Mentions, Hands;
      var i := 0;
      assert tup[0..] == tup && tup[..0] == [];
      HandsNothing(ts, pid, tup[..0]);
      while i < |tup|
        invariant i <= |tup| && ts.Keys == old(ts).Keys
        invariant Ledger(ts, owed) && AllRooted(ts) && owed == base + Pairs(cur, Mentions(tup[i..]))
        invariant Hands(old(ts), ts, pid, Mentions(tup[..i]))
      {
        MentionsNext(tup, i, cur);
        MentionsLast(tup, i);
        if tup[i].SpaceRef? && tup[i].id != UTS {
          ghost var ts0 := ts;
          HandOver(tup[i].id, cur, pid, base + Pairs(cur, Mentions(tup[i + 1..])));
          HandsToo(old(ts), ts0, ts, pid, Mentions(tup[..i]), tup[i].id);
        }
        i := i + 1;
      }
      assert tup[..i] == tup;
      MentionsNone(tup[i..], cur);
      HandsEachReference(old(ts), ts, pid, tup);
    }

    /** Gives a process a reference to z in place of the one of space cur. */
    method HandOver(z: Id, cur: Id, pid: nat, ghost base: multiset<(Id, Id)>)
      requires Ledger(ts, owed) && AllRooted(ts) && owed == base + multiset{(cur, z)} && z in ts && z != UTS
      modifies this
      ensures Ledger(ts, owed) && AllRooted(ts) && owed == base
      ensures ts.Keys == old(ts).Keys && Hands(old(ts), ts, pid, [z])
    {
      hide AllRooted, Ledger, Keeps, AllAnchored, Hands, Dropped;
      RootedIsAnchored(ts);
      ghost var ts0 := ts;
      var ok := AddReference(z, Process(pid));
      ghost var ts1 := ts;
      ok := DeleteReference(z, InSpace(cur));
      SwappedOwner(ts0, ts1, z, cur, pid);
      HandsOne(ts0, Dropped(ts1, z, InSpace(cur)), ts, pid, z);
      assert owed == base;
    }
  }

  predicate IsLocal(e: Element) {
    e.SpaceRef? && e.id != UTS
  }

  /** The same spaces with the same tuples; process pid holds each of them once more for every time it is in
      zs, and other processes hold what they held. */
  ghost predicate Hands(ts: Spaces, ts': Spaces, pid: nat, zs: seq<Id>) {
    && ts'.Keys == ts.Keys
    && (forall x :: x in ts ==> ts'[x].tuples == ts[x].tuples)
    && (forall x, p :: x in ts ==>
          multiset(ts'[x].refs)[Process(p)] == multiset(ts[x].refs)[Process(p)] + if p == pid then multiset(zs)[x] else 0)
  }

  lemma HandsEachReference(ts: Spaces, ts': Spaces, pid: nat, tup: Tup)
    requires Hands(ts, ts', pid, Mentions(tup))
    ensures ts'.Keys == ts.Keys && forall x :: x in ts' && x != UTS ==>
      multiset(ts'[x].refs)[Process(pid)] == multiset(ts[x].refs)[Process(pid)] + multiset(tup)[SpaceRef(x)]
  {
    forall x | x in ts && x != UTS
      ensures multiset(Mentions(tup))[x] == multiset(tup)[SpaceRef(x)]
    {
      MentionsCount(tup, x);
    }
  }

  lemma HandsNothing(ts: Spaces, pid: nat, tup: Tup)
    requires tup == []
    ensures Hands(ts, ts, pid, Mentions(tup))
  {
  }

  lemma HandsToo(ts: Spaces, ts': Spaces, ts'': Spaces, pid: nat, zs: seq<Id>, z: Id)
    requires Hands(ts, ts', pid, zs) && Hands(ts', ts'', pid, [z])
    ensures Hands(ts, ts'', pid, zs + [z])
  {
    assert forall x :: multiset(zs + [z])[x] == multiset(zs)[x] + multiset([z])[x];
  }

  lemma MentionsLast(tup: Tup, i: nat)
    requires i < |tup|
    ensures Mentions(tup[..i + 1]) == if IsLocal(tup[i]) then Mentions(tup[..i]) + [tup[i].id] else Mentions(tup[..i])
  {
    MentionsJoin(tup[..i], [tup[i]]);
    assert tup[..i + 1] == tup[..i] + [tup[i]] && [tup[i]][1..] == [];
    assert Mentions(tup[..i]) + [] == Mentions(tup[..i]);
  }

  lemma {:induction false} MentionsJoin(a: Tup, b: Tup)
    ensures Mentions(a + b) == Mentions(a) + Mentions(b)
  {
    if a == [] {
      assert a + b == b;
    } else {
      var head := if IsLocal(a[0]) then [a[0].id] else [];
      assert (a + b)[0] == a[0] && (a + b)[1..] == a[1..] + b;
      MentionsJoin(a[1..], b);
      assert head + (Mentions(a[1..]) + Mentions(b)) == head + Mentions(a[1..]) + Mentions(b);
    }
  }

  lemma SwappedRefs(ts0: Spaces, ts1: Spaces, z: Id, cur: Id, pid: nat)
    requires z in ts0 && z != UTS
    requires ts1 == ts0[z := Space(ts0[z].refs + [Process(pid)], ts0[z].tuples)]
    ensures var ts' := Dropped(ts1, z, InSpace(cur));
      && (forall x :: x in ts0 && x != z ==> x in ts' && ts'[x].refs == ts0[x].refs)
      && Edge(Owners(ts'), InSpace(z), Process(pid))
      && Hands(ts0, ts', pid, [z])
  {
    hide RemoveFirst;
    var ts' := Dropped(ts1, z, InSpace(cur));
    RemoveFirstCounts(ts1[z].refs, InSpace(cur));
    assert multiset(ts'[z].refs) == multiset(ts0[z].refs) + multiset{Process(pid)} - multiset{InSpace(cur)};
    assert Process(pid) in multiset(ts'[z].refs);
    SwappedHands(ts0, ts', z, cur, pid);
  }

  lemma SwappedHands(ts: Spaces, ts': Spaces, z: Id, cur: Id, pid: nat)
    requires ts'.Keys == ts.Keys && z in ts && forall x :: x in ts && x != z ==> ts'[x] == ts[x]
    requires ts'[z].tuples == ts[z].tuples
    requires multiset(ts'[z].refs) == multiset(ts[z].refs) + multiset{Process(pid)} - multiset{InSpace(cur)}
    ensures Hands(ts, ts', pid, [z])
  {
  }

  /** Every node that reached a root still does once z is held by a process instead of cur. */
  lemma SwappedOwner(ts0: Spaces, ts1: Spaces, z: Id, cur: Id, pid: nat)
    requires AllRooted(ts0) && z in ts0 && z != UTS
    requires ts1 == ts0[z := Space(ts0[z].refs + [Process(pid)], ts0[z].tuples)]
    ensures AllRooted(Dropped(ts1, z, InSpace(cur))) && Hands(ts0, Dropped(ts1, z, InSpace(cur)), pid, [z])
  {
    hide RemoveFirst, Reaches, Keeps, Dropped;
    var ts' := Dropped(ts1, z, InSpace(cur));
    SwappedRefs(ts0, ts1, z, cur, pid);
    ReachesSelf(Owners(ts'), Process(pid));
    ReachesFirst(Owners(ts'), InSpace(z), Process(pid), Process(pid));
    forall x | x in ts'
      ensures Rooted(ts', x)
    {
      var h :| IsRoot(h) && Reaches(Owners(ts0), InSpace(x), h);
      SwappedWay(ts0, ts', z, InSpace(x), h, pid);
    }
  }

  /** A way to h leads to h or to the process that now holds z. */
  lemma SwappedWay(ts0: Spaces, ts': Spaces, z: Id, a: Holder, h: Holder, pid: nat)
    requires Reaches(Owners(ts0), a, h) && Reaches(Owners(ts'), InSpace(z), Process(pid))
    requires forall x :: x in ts0 && x != z ==> x in ts' && ts'[x].refs == ts0[x].refs
    ensures Reaches(Owners(ts'), a, h) || Reaches(Owners(ts'), a, Process(pid))
  {
    hide Reaches;
    var s := iset n | Reaches(Owners(ts'), n, h) || Reaches(Owners(ts'), n, Process(pid));
    ReachesSelf(Owners(ts'), h);
    forall x, y | y in s && Edge(Owners(ts0), x, y)
      ensures x in s
    {
      if x != InSpace(z) {
        assert Edge(Owners(ts'), x, y);
        if Reaches(Owners(ts'), y, h) {
          ReachesFirst(Owners(ts'), x, y, h);
        } else {
          ReachesFirst(Owners(ts'), x, y, Process(pid));
        }
      }
    }
    ReachesBackwards(Owners(ts0), s, a, h);
  }

  /** Where every space is rooted, nothing more is lost when references are dropped. */
  lemma KeepsAllRooted(ts: Spaces, ts': Spaces)
    requires AllRooted(ts) && Keeps(ts, ts')
    ensures AllRooted(ts') && ts'.Keys == ts.Keys
  {
    hide Reaches;
    forall x | x in ts
      ensures x in ts' && Rooted(ts', x)
    {
      var h :| IsRoot(h) && Reaches(Owners(ts), InSpace(x), h);
    }
  }

  lemma HandsOne(ts: Spaces, ts1: Spaces, ts': Spaces, pid: nat, z: Id)
    requires AllRooted(ts1) && Keeps(ts1, ts') && Hands(ts, ts1, pid, [z])
    ensures AllRooted(ts') && ts'.Keys == ts.Keys && Hands(ts, ts', pid, [z])
  {
    hide Reaches, AllRooted;
    KeepsAllRooted(ts1, ts');
  }

  lemma SameSize(a: Spaces, b: Spaces)
    requires a.Keys == b.Keys
    ensures |a| == |b|
  {
    assert |a.Keys| == |a| && |b.Keys| == |b|;
  }

  lemma SmallerWithout(ts: Spaces, t: Id)
    requires t in ts
    ensures |ts - {t}| < |ts|
  {
    assert ts.Keys == (ts - {t}).Keys + {t};
  }

  lemma UniversalIsRooted(ts: Spaces)
    ensures Rooted(ts, UTS)
  {
    ReachesSelf(Owners(ts), InSpace(UTS));
  }

  lemma NoOwnersNotRooted(ts: Spaces, t: Id)
    requires t in ts && t != UTS && ts[t].refs == []
    ensures !Rooted(ts, t)
  {
    if Rooted(ts, t) {
      var h :| IsRoot(h) && Reaches(Owners(ts), InSpace(t), h);
      ClosedContains(Owners(ts), {InSpace(t)}, InSpace(t), h);
    }
  }

  lemma KeepsNothingNew(ts: Spaces, ts': Spaces)
    requires Keeps(ts, ts')
    ensures ts'.Keys <= ts.Keys
  {
  }

  lemma KeepsFewer(ts: Spaces, ts': Spaces)
    requires Keeps(ts, ts')
    ensures |ts'| <= |ts|
  {
    assert ts.Keys == ts'.Keys + (ts.Keys - ts'.Keys);
    assert |ts.Keys| == |ts'.Keys| + |ts.Keys - ts'.Keys|;
  }

  lemma PairsFirst(s: Id, z: Id, zs: seq<Id>)
    ensures Pairs(s, [z] + zs) == multiset{(s, z)} + Pairs(s, zs)
  {
    assert ([z] + zs)[1..] == zs;
  }

  lemma PairsNone(s: Id, zs: seq<Id>)
    requires zs == []
    ensures Pairs(s, zs) == multiset{}
  {
  }

  lemma DroppedProcesses(ts: Spaces, z: Id, t: Id)
    ensures SameProcesses(ts, Dropped(ts, z, InSpace(t)))
  {
    hide RemoveFirst;
    if z in ts {
      RemoveFirstCounts(ts[z].refs, InSpace(t));
    }
  }

  lemma DroppedDeadKeeps(ts: Spaces, z: Id, t: Id)
    requires t !in ts && t != UTS
    ensures Keeps(ts, Dropped(ts, z, InSpace(t)))
  {
    hide RemoveFirst, Reaches, SameProcesses;
    var ts' := Dropped(ts, z, InSpace(t));
    DroppedProcesses(ts, z, t);
    if z in ts && z != UTS {
      RemoveFirstCounts(ts[z].refs, InSpace(t));
      forall b | b in ts[z].refs && b != InSpace(t)
        ensures b in ts'[z].refs
      {
        assert b in multiset(ts[z].refs);
        assert b in multiset(ts'[z].refs);
      }
      forall x, h | x in ts && IsRoot(h) && Reaches(Owners(ts), InSpace(x), h)
        ensures Reaches(Owners(ts'), InSpace(x), h)
      {
        WayAround(ts, ts', z, InSpace(t), InSpace(x), h);
      }
    } else {
      KeepsSelf(ts);
    }
  }

  /** Where every space was rooted and nothing is owed afterwards, exactly the unrooted ones are gone. */
  lemma CollectsExactlyTheUnrooted(ts: Spaces, ts': Spaces)
    requires Keeps(ts, ts') && Ledger(ts', multiset{}) && AllAnchored(ts', {})
    ensures forall x :: x in ts ==> (x in ts' <==> Rooted(ts, x))
    ensures AllRooted(ts')
  {
    NothingOwedAllRooted(ts');
    KeepsSubGraph(ts, ts');
    forall x | x in ts'
      ensures Rooted(ts, x)
    {
      var h :| IsRoot(h) && Reaches(Owners(ts'), InSpace(x), h);
      ReachesMonotone(Owners(ts'), Owners(ts), InSpace(x), h);
    }
  }

  lemma DropsExactlyTheUnrooted(ts: Spaces, ts': Spaces, owed: multiset<(Id, Id)>)
    requires Keeps(ts, ts') && Ledger(ts', owed) && AllAnchored(ts', {})
    ensures owed == multiset{} ==> AllRooted(ts') && forall x :: x in ts ==> (x in ts' <==> Rooted(ts, x))
  {
    hide Keeps, Ledger, AllAnchored, AllRooted, Rooted;
    if owed == multiset{} {
      CollectsExactlyTheUnrooted(ts, ts');
    }
  }

  /** x is rooted in something else than process pid. */
  ghost predicate RootedWithout(ts: Spaces, pid: nat, x: Id) {
    exists h :: IsRoot(h) && h != Process(pid) && Reaches(Owners(ts), InSpace(x), h)
  }

  /** As Keeps, for the ways that do not end at process pid. */
  ghost predicate KeepsWithout(ts: Spaces, ts': Spaces, pid: nat) {
    && (forall x :: x in ts' ==> x in ts && ts'[x].tuples == ts[x].tuples && multiset(ts'[x].refs) <= multiset(ts[x].refs))
    && (forall x, h :: x in ts && IsRoot(h) && h != Process(pid) && Reaches(Owners(ts), InSpace(x), h) ==>
          x in ts' && Reaches(Owners(ts'), InSpace(x), h))
  }

  lemma KeepsWithoutSelf(ts: Spaces, pid: nat)
    ensures KeepsWithout(ts, ts, pid)
  {
  }

  /** Dropping the references of a process leaves the ways to other roots. */
  lemma DroppedAllKeepsWithout(ts: Spaces, pid: nat, t: Id)
    ensures KeepsWithout(ts, DroppedAll(ts, t, Process(pid)), pid)
  {
    hide RemoveAll, Reaches;
    var ts' := DroppedAll(ts, t, Process(pid));
    if t in ts && t != UTS {
      RemoveAllCounts(ts[t].refs, Process(pid));
      forall b | b in ts[t].refs && b != Process(pid)
        ensures b in ts'[t].refs
      {
        assert b in multiset(ts[t].refs);
        assert b in multiset(ts'[t].refs);
      }
      forall x, h | x in ts && IsRoot(h) && h != Process(pid) && Reaches(Owners(ts), InSpace(x), h)
        ensures Reaches(Owners(ts'), InSpace(x), h)
      {
        WayAround(ts, ts', t, Process(pid), InSpace(x), h);
      }
    }
  }

  lemma KeepsWithoutTransitive(ts: Spaces, ts': Spaces, ts'': Spaces, pid: nat)
    requires KeepsWithout(ts, ts', pid) && KeepsWithout(ts', ts'', pid)
    ensures KeepsWithout(ts, ts'', pid)
  {
    hide Reaches;
  }

  lemma KeepsIsKeepsWithout(ts: Spaces, ts': Spaces, pid: nat)
    requires Keeps(ts, ts')
    ensures KeepsWithout(ts, ts', pid)
  {
    hide Reaches;
  }

  lemma KeepsWithoutNext(ts: Spaces, ts': Spaces, ts'': Spaces, pid: nat, t: Id)
    requires KeepsWithout(ts, ts', pid) && Keeps(DroppedAll(ts', t, Process(pid)), ts'')
    ensures KeepsWithout(ts, ts'', pid)
  {
    hide KeepsWithout, Keeps;
    DroppedAllKeepsWithout(ts', pid, t);
    KeepsIsKeepsWithout(DroppedAll(ts', t, Process(pid)), ts'', pid);
    KeepsWithoutTransitive(ts, ts', DroppedAll(ts', t, Process(pid)), pid);
    KeepsWithoutTransitive(ts, DroppedAll(ts', t, Process(pid)), ts'', pid);
  }

  /** The process holds nothing in the listed spaces. */
  ghost predicate Cleared(ts: Spaces, done: seq<Id>, pid: nat) {
    forall x :: x in done && x in ts && x != UTS ==> Process(pid) !in multiset(ts[x].refs)
  }

  lemma ClearedNone(ts: Spaces, keys: seq<Id>, pid: nat)
    ensures Cleared(ts, keys[..0], pid)
  {
  }

  lemma ClearedNext(ts: Spaces, ts': Spaces, keys: seq<Id>, i: nat, pid: nat)
    requires i < |keys| && Cleared(ts, keys[..i], pid) && Keeps(DroppedAll(ts, keys[i], Process(pid)), ts')
    ensures Cleared(ts', keys[..i + 1], pid)
  {
    hide Reaches, RemoveAll;
    var t := keys[i];
    if t in ts {
      RemoveAllCounts(ts[t].refs, Process(pid));
    }
    var mid := DroppedAll(ts, t, Process(pid));
    assert Cleared(mid, keys[..i + 1], pid);
    forall x | x in keys[..i + 1] && x in ts' && x != UTS
      ensures Process(pid) !in multiset(ts'[x].refs)
    {
      assert multiset(ts'[x].refs) <= multiset(mid[x].refs);
    }
  }

  lemma ClearedAll(ts: Spaces, ts': Spaces, keys: seq<Id>, pid: nat)
    requires Cleared(ts', keys, pid) && KeepsWithout(ts, ts', pid) && forall x :: x in ts ==> x in keys
    ensures forall x :: x in ts' && x != UTS ==> Process(pid) !in ts'[x].refs
  {
    hide Reaches;
    forall x | x in ts' && x != UTS
      ensures Process(pid) !in ts'[x].refs
    {
      assert Process(pid) !in multiset(ts'[x].refs);
    }
  }

  lemma KeepsWithoutMeans(ts: Spaces, ts': Spaces, pid: nat)
    requires KeepsWithout(ts, ts', pid) && AllRooted(ts')
    requires forall x :: x in ts' && x != UTS ==> Process(pid) !in ts'[x].refs
    ensures forall x :: x in ts ==> (x in ts' <==> RootedWithout(ts, pid, x))
    ensures forall x :: x in ts' ==> x in ts && ts'[x].tuples == ts[x].tuples
  {
    KeepsSubGraph(ts, ts');
    forall x | x in ts'
      ensures RootedWithout(ts, pid, x)
    {
      if x == UTS {
        ReachesSelf(Owners(ts), InSpace(UTS));
        assert RootedWithout(ts, pid, x);
      } else {
        var h :| IsRoot(h) && Reaches(Owners(ts'), InSpace(x), h);
        ReachesMonotone(Owners(ts'), Owners(ts), InSpace(x), h);
        if h == Process(pid) {
          var y := LastEdge(Owners(ts'), InSpace(x), h);
          assert y == InSpace(UTS);
          ReachesMonotone(Owners(ts'), Owners(ts), InSpace(x), y);
        }
      }
    }
  }

  lemma AddedLedger(ts: Spaces, owed: multiset<(Id, Id)>, t: Id, h: Holder)
    requires Ledger(ts, owed) && t in ts && t != UTS
    ensures Ledger(ts[t := Space(ts[t].refs + [h], ts[t].tuples)], if h.InSpace? then owed + multiset{(h.id, t)} else owed)
  {
    hide MentionsOf, Ledger;
    LedgerFollows(ts, owed, t, ts[t].refs + [h], if h.InSpace? then owed + multiset{(h.id, t)} else owed);
  }

  lemma AddedAnchored(ts: Spaces, t: Id, h: Holder)
    requires AllAnchored(ts, {}) && t in ts
    ensures AllAnchored(ts[t := Space(ts[t].refs + [h], ts[t].tuples)], {})
  {
    var ts' := ts[t := Space(ts[t].refs + [h], ts[t].tuples)];
    assert SubGraph(Owners(ts), Owners(ts'));
    forall x | x in ts'
      ensures Anchored(ts', x, {})
    {
      var e :| IsEnd(ts, e, {}) && Reaches(Owners(ts), InSpace(x), e);
      ReachesMonotone(Owners(ts), Owners(ts'), InSpace(x), e);
      assert IsEnd(ts', e, {});
    }
  }

  lemma MentionsNext(tup: Tup, i: nat, t: Id)
    requires i < |tup|
    ensures IsLocal(tup[i]) ==> Pairs(t, Mentions(tup[i..])) == multiset{(t, tup[i].id)} + Pairs(t, Mentions(tup[i + 1..]))
    ensures !IsLocal(tup[i]) ==> Pairs(t, Mentions(tup[i..])) == Pairs(t, Mentions(tup[i + 1..]))
  {
    assert tup[i..][1..] == tup[i + 1..];
    if IsLocal(tup[i]) {
      PairsFirst(t, tup[i].id, Mentions(tup[i + 1..]));
    } else {
      assert [] + Mentions(tup[i + 1..]) == Mentions(tup[i + 1..]);
    }
  }

  lemma MentionsNone(tup: Tup, t: Id)
    requires tup == []
    ensures Pairs(t, Mentions(tup)) == multiset{}
  {
  }

  /** Emptying the references of a space that is not rooted. */
  lemma ClearedRefs(ts: Spaces, ts': Spaces, owed: multiset<(Id, Id)>, t: Id)
    requires t in ts && t != UTS && Ledger(ts, owed) && AllAnchored(ts, {t})
    requires if Rooted(ts, t) then ts' == ts else ts' == ts[t := Space([], ts[t].tuples)]
    ensures AllAnchored(ts', {t}) && Keeps(ts, ts')
    ensures LedgerBut(ts', owed, t) && if Rooted(ts', t) then Ledger(ts', owed) else ts'[t].refs == []
  {
    hide Keeps, MentionsOf, Rooted, Anchored, IsEnd;
    if Rooted(ts, t) {
      KeepsSelf(ts);
    } else {
      UnrootedKeeps(ts, ts', t);
      NoOwnersNotRooted(ts', t);
      AnchorsElsewhere(ts, ts', {t}, {t}, t) by {
        SameEnds(ts, ts', {t}, t);
      }
      forall s: Id, u: Id | u in ts' && u != UTS && u != t
        ensures multiset(ts'[u].refs)[InSpace(s)] == Stored(ts', s, u) + owed[(s, u)]
      {
        assert multiset(ts[u].refs)[InSpace(s)] == Stored(ts, s, u) + owed[(s, u)];
      }
    }
  }

  lemma SameEnds(ts: Spaces, ts': Spaces, e: set<Id>, t: Id)
    requires ts'.Keys == ts.Keys && t in e
    ensures forall h :: IsEnd(ts, h, e) ==> IsEnd(ts', h, e)
    ensures IsEnd(ts', InSpace(t), e)
  {
  }
}
