/** Copying a graph of values, sharing and cycles included (Minimal_copy in minimal/src/values.c). */
module ValueCopy {
  import opened Graphs
  import opened Pigeonhole
  import opened HeapGraph
  import opened Options

  /** Values by what copying does with them. Scalars and strings are copied whole; type and function
      values share what they are made of; tuples and pointers have their components copied. */
  datatype Node =
    | Scalar(typeobj: Option<Ref>, payload: int)
    | Text(typeobj: Option<Ref>, text: string)
    | Shared(typeobj: Option<Ref>, name: string, parts: seq<Ref>)
    | Tuple(typeobj: Option<Ref>, values: seq<Option<Ref>>)
    | Pointer(typeobj: Option<Ref>, target: Option<Ref>)

  type Nodes = map<Ref, Node>
  type Memo = map<Ref, Ref>

  /** The components that are copied. */
  function Kids(n: Node): seq<Option<Ref>> {
    match n
    case Tuple(_, vs) => vs
    case Pointer(_, t) => [t]
    case _ => []
  }

  /** The objects the copy refers to as well. */
  function Kept(n: Node): seq<Ref> {
    Opt(n.typeobj) + (if n.Shared? then n.parts else [])
  }

  ghost predicate Within(rs: seq<Option<Ref>>, s: set<Ref>) {
    forall i :: 0 <= i < |rs| && rs[i].Some? ==> rs[i].value in s
  }

  /** Every reference leads to a node. */
  ghost predicate Wellformed(g: Nodes) {
    forall x :: x in g ==> Within(Kids(g[x]), g.Keys) && forall r :: r in Kept(g[x]) ==> r in g
  }

  ghost function Successors(g: Nodes): Graph {
    map x | x in g :: Present(Kids(g[x]))
  }

  /** A new node before its components are filled in. */
  function Shell(n: Node): Node {
    match n
    case Tuple(t, _) => Tuple(t, [])
    case Pointer(t, _) => Pointer(t, None)
    case _ => n
  }

  function MapOne(f: Memo, r: Option<Ref>): Option<Ref>
    requires r.Some? ==> r.value in f
  {
    if r.Some? then Some(f[r.value]) else None
  }

  ghost predicate MapsTo(f: Memo, rs: seq<Option<Ref>>, qs: seq<Option<Ref>>) {
    |qs| == |rs| && Within(rs, f.Keys) && forall i :: 0 <= i < |rs| ==> qs[i] == MapOne(f, rs[i])
  }

  /** m is n with its components replaced by their copies. */
  ghost predicate Copies(f: Memo, n: Node, m: Node) {
    match n
    case Tuple(t, vs) => m.Tuple? && m.typeobj == t && MapsTo(f, vs, m.values)
    case Pointer(t, r) => m.Pointer? && m.typeobj == t && MapsTo(f, [r], [m.target])
    case _ => m == n
  }

  ghost predicate Injective(f: Memo) {
    forall x, y :: x in f && y in f && f[x] == f[y] ==> x == y
  }

  /** The references among the new nodes. */
  ghost function NewGraph(node: Nodes, f: Memo): Graph
    requires f.Values <= node.Keys
  {
    map n | n in f.Values :: Present(Kids(node[n]))
  }

  /** The references from copied values to what they share with their copies. */
  ghost function KeptGraph(old': Nodes, f: Memo): Graph
    requires f.Keys <= old'.Keys
  {
    map u | u in f.Keys :: Kept(old'[u])
  }

  datatype State = State(node: Nodes, count: map<Ref, int>, next: Ref, f: Memo)

  ghost predicate Shape(old': Nodes, s: State) {
    && s.f.Keys <= old'.Keys && s.f.Values !! old'.Keys && Injective(s.f)
    && s.node.Keys == s.count.Keys == old'.Keys + s.f.Values
    && (forall x :: x in s.node ==> x < s.next)
    && (forall x :: x in old' ==> s.node[x] == old'[x])
    && (forall n :: n in s.f.Values ==> Within(Kids(s.node[n]), s.f.Values))
  }

  /** New nodes are counted once per reference among new nodes plus once per reference in extra. */
  ghost predicate NewCounts(within: multiset<Ref>, extra: multiset<Ref>, copies: set<Ref>, count: map<Ref, int>) {
    && (forall n :: n in extra ==> n in copies)
    && (forall n :: n in copies ==> n in count && count[n] == within[n] + extra[n])
  }

  /** Old nodes gained one count per reference shared with a new node. */
  ghost predicate OldCounts(oldCount: map<Ref, int>, kept: multiset<Ref>, olds: set<Ref>, count: map<Ref, int>) {
    forall x :: x in olds ==> x in oldCount && x in count && count[x] == oldCount[x] + kept[x]
  }

  ghost predicate Counted(old': Nodes, oldCount: map<Ref, int>, s: State, extra: multiset<Ref>)
    requires Shape(old', s)
  {
    && NewCounts(Incoming(NewGraph(s.node, s.f)), extra, s.f.Values, s.count)
    && OldCounts(oldCount, Incoming(KeptGraph(old', s.f)), old'.Keys, s.count)
  }

  ghost predicate Finished(old': Nodes, s: State, done: set<Ref>)
    requires Shape(old', s)
  {
    forall u :: u in done ==> u in s.f && Copies(s.f, old'[u], s.node[s.f[u]])
  }

  ghost predicate Inv(old': Nodes, oldCount: map<Ref, int>, s: State, done: set<Ref>, extra: multiset<Ref>) {
    && Shape(old', s) && Counted(old', oldCount, s, extra) && Finished(old', s, done)
  }

  ghost predicate Extends(f: Memo, f': Memo) {
    forall u :: u in f ==> u in f' && f'[u] == f[u]
  }

  /** Copies still under construction in s are as they were. */
  ghost predicate Untouched(s: State, t: State, done: set<Ref>) {
    forall u :: u in s.f && u !in done ==> s.f[u] in s.node && s.f[u] in t.node && t.node[s.f[u]] == s.node[s.f[u]]
  }

  /** From s to t some values were copied: those memoised in between are finished, and copies still
      under construction in s are as they were. */
  ghost predicate Progress(old': Nodes, s: State, t: State, done: set<Ref>)
    requires Shape(old', s) && Shape(old', t)
  {
    Extends(s.f, t.f) && Untouched(s, t, done)
  }

  ghost function NewlyDone(s: State, t: State, done: set<Ref>): set<Ref> {
    done + (t.f.Keys - s.f.Keys)
  }

  ghost function Plus(r: Option<Ref>): multiset<Ref> {
    if r.Some? then multiset{r.value} else multiset{}
  }

  lemma {:induction false} PresentJoin(a: seq<Option<Ref>>, b: seq<Option<Ref>>)
    ensures Present(a + b) == Present(a) + Present(b)
  {
    if a == [] {
      assert a + b == b;
    } else {
      assert (a + b)[1..] == a[1..] + b && (a + b)[0] == a[0];
      PresentJoin(a[1..], b);
    }
  }

  lemma {:induction false} PresentMember(rs: seq<Option<Ref>>, x: Ref)
    ensures x in Present(rs) <==> Some(x) in rs
  {
    if rs != [] {
      PresentMember(rs[1..], x);
      assert rs == [rs[0]] + rs[1..];
    }
  }

  /** Adding one reference to the list of a node. */
  lemma IncomingAppend(g: Graph, n: Ref, refs: seq<Ref>, c: Option<Ref>)
    requires n in g && refs == g[n] + Opt(c)
    ensures Incoming(g[n := refs]) == Incoming(g) + Plus(c)
  {
    var h: Graph, rest: Graph := g[n := refs], g - {n};
    IncomingRemove(g, n);
    IncomingRemove(h, n);
    assert h - {n} == rest;
    assert multiset(refs) == multiset(g[n]) + Plus(c);
  }

  lemma IncomingNew(g: Graph, n: Ref, refs: seq<Ref>)
    requires n !in g
    ensures Incoming(g[n := refs]) == Incoming(g) + multiset(refs)
  {
    var h: Graph := g[n := refs];
    IncomingRemove(h, n);
    assert h - {n} == g;
  }

  /** A reference to an existing copy. */
  lemma HitKeepsInv(old': Nodes, oldCount: map<Ref, int>, s: State, t: State, done: set<Ref>, extra: multiset<Ref>, n: Ref)
    requires Inv(old', oldCount, s, done, extra) && n in s.f.Values
    requires t == s.(count := s.count[n := s.count[n] + 1])
    ensures Inv(old', oldCount, t, done, extra + multiset{n})
    ensures Progress(old', s, t, done) && NewlyDone(s, t, done) == done
  {
    hide Copies, Within, Wellformed, NewGraph, KeptGraph, Incoming, NewCounts, OldCounts;
    assert n in s.node.Keys;
    assert t.count.Keys == s.count.Keys;
    assert Shape(old', t);
    HitCounts(old', oldCount, s, t, extra, n);
  }

  lemma CountedOnce(within: multiset<Ref>, extra: multiset<Ref>, copies: set<Ref>, count: map<Ref, int>, n: Ref)
    requires NewCounts(within, extra, copies, count) && n in copies
    ensures NewCounts(within, extra + multiset{n}, copies, count[n := count[n] + 1])
  {
  }

  lemma OldCountsElsewhere(oldCount: map<Ref, int>, kept: multiset<Ref>, olds: set<Ref>, count: map<Ref, int>, n: Ref)
    requires OldCounts(oldCount, kept, olds, count) && n !in olds && n in count
    ensures OldCounts(oldCount, kept, olds, count[n := count[n] + 1])
  {
  }

  lemma HitCounts(old': Nodes, oldCount: map<Ref, int>, s: State, t: State, extra: multiset<Ref>, n: Ref)
    requires Shape(old', s) && Shape(old', t) && Counted(old', oldCount, s, extra) && n in s.f.Values
    requires t == s.(count := s.count[n := s.count[n] + 1])
    ensures Counted(old', oldCount, t, extra + multiset{n})
  {
    hide Copies, Within, Injective, NewGraph, KeptGraph, Incoming, NewCounts, OldCounts;
    assert n !in old' && n in s.count;
    CountedOnce(Incoming(NewGraph(s.node, s.f)), extra, s.f.Values, s.count, n);
    OldCountsElsewhere(oldCount, Incoming(KeptGraph(old', s.f)), old'.Keys, s.count, n);
  }

  lemma ValuesGrow(f: Memo, v: Ref, n: Ref)
    requires v !in f
    ensures f[v := n].Values == f.Values + {n}
  {
    var g := f[v := n];
    forall x | x in f.Values + {n}
      ensures x in g.Values
    {
      if x == n {
        assert g[v] == x;
      } else {
        var u :| u in f && f[u] == x;
        assert g[u] == x;
      }
    }
  }

  lemma InjectiveGrows(f: Memo, v: Ref, n: Ref)
    requires Injective(f) && v !in f && n !in f.Values
    ensures Injective(f[v := n])
  {
    assert forall x :: x in f ==> f[x] in f.Values;
  }

  lemma ShellIsEmpty(n: Node, s: set<Ref>)
    ensures Within(Kids(Shell(n)), s)
  {
  }

  lemma WithinMore(rs: seq<Option<Ref>>, s: set<Ref>, t: set<Ref>)
    requires s <= t
    ensures Within(rs, s) ==> Within(rs, t)
  {
  }

  lemma EnterKeepsShape(old': Nodes, s: State, t: State, v: Ref)
    requires Shape(old', s) && v in old' && v !in s.f
    requires forall x :: x in old' ==> x < s.next
    requires t.node == s.node[s.next := Shell(old'[v])] && t.f == s.f[v := s.next] && t.next == s.next + 1
    requires t.count.Keys == s.count.Keys + {s.next}
    ensures Shape(old', t) && s.next !in s.f.Values && t.f.Values == s.f.Values + {s.next}
    ensures Within(Kids(Shell(old'[v])), s.f.Values)
  {
    hide Within, Injective;
    assert s.next !in s.node.Keys;
    ValuesGrow(s.f, v, s.next);
    InjectiveGrows(s.f, v, s.next);
    ShellIsEmpty(old'[v], s.f.Values);
    forall n | n in t.f.Values
      ensures Within(Kids(t.node[n]), t.f.Values)
    {
      WithinMore(Kids(t.node[n]), s.f.Values, t.f.Values);
    }
  }

  /** A value not met before gets a new object, counted for the reference that asked for it. */
  lemma EnterKeepsInv(old': Nodes, oldCount: map<Ref, int>, s: State, t: State, done: set<Ref>, extra: multiset<Ref>, v: Ref)
    requires Inv(old', oldCount, s, done, extra) && v in old' && v !in s.f
    requires Wellformed(old')
    requires t.node == s.node[s.next := Shell(old'[v])] && t.f == s.f[v := s.next] && t.next == s.next + 1
    requires t.count.Keys == s.count.Keys + {s.next} && t.count[s.next] == 1
    requires forall x :: x in s.count ==> t.count[x] == s.count[x] + multiset(Kept(old'[v]))[x]
    ensures Inv(old', oldCount, t, done, extra + multiset{s.next})
    ensures Progress(old', s, t, done) && v !in done && s.next !in s.f.Values
  {
    hide Copies, Within, NewGraph, KeptGraph, Incoming, NewCounts, OldCounts, Wellformed, Kept, Shell, Injective;
    assert forall x :: x in old' ==> x in s.node.Keys;
    EnterKeepsShape(old', s, t, v);
    EnterGraphs(old', s, t, v);
    EnterKeepsCounts(old', oldCount, s, t, extra, v);
    EnterKeepsFinished(old', s, t, done, v);
  }

  lemma EnterGraphs(old': Nodes, s: State, t: State, v: Ref)
    requires Shape(old', s) && Shape(old', t) && v in old' && v !in s.f
    requires s.next !in s.f.Values && t.f.Values == s.f.Values + {s.next}
    requires t.node == s.node[s.next := Shell(old'[v])] && t.f == s.f[v := s.next]
    ensures NewGraph(t.node, t.f) == NewGraph(s.node, s.f)[s.next := []]
    ensures KeptGraph(old', t.f) == KeptGraph(old', s.f)[v := Kept(old'[v])]
  {
    hide Copies, Within, Incoming, Wellformed, Kept, Injective, Shape;
    assert Present(Kids(Shell(old'[v]))) == [];
  }

  lemma NoReferencesToNext(old': Nodes, s: State)
    requires Shape(old', s)
    ensures Incoming(NewGraph(s.node, s.f))[s.next] == 0
  {
    hide Injective, Incoming;
    var g: Graph := NewGraph(s.node, s.f);
    IncomingMember(g, s.next);
    assert s.next !in s.f.Values;
    forall y | y in g
      ensures !Edge(g, y, s.next)
    {
      PresentMember(Kids(s.node[y]), s.next);
      assert Within(Kids(s.node[y]), s.f.Values);
    }
  }

  lemma EnterKeepsCounts(old': Nodes, oldCount: map<Ref, int>, s: State, t: State, extra: multiset<Ref>, v: Ref)
    requires Shape(old', s) && Shape(old', t) && Counted(old', oldCount, s, extra)
    requires v in old' && Wellformed(old') && s.next !in s.f.Values && t.f.Values == s.f.Values + {s.next}
    requires t.count.Keys == s.count.Keys + {s.next} && t.count[s.next] == 1
    requires forall x :: x in s.count ==> t.count[x] == s.count[x] + multiset(Kept(old'[v]))[x]
    requires v !in s.f && NewGraph(t.node, t.f) == NewGraph(s.node, s.f)[s.next := []]
    requires KeptGraph(old', t.f) == KeptGraph(old', s.f)[v := Kept(old'[v])]
    ensures Counted(old', oldCount, t, extra + multiset{s.next})
  {
    hide Copies, Within, Injective, NewGraph, KeptGraph, Incoming, Kept, Kids, NewCounts, OldCounts;
    var g: Graph, k: Graph := NewGraph(s.node, s.f), KeptGraph(old', s.f);
    assert g.Keys == s.f.Values && k.Keys == s.f.Keys by {
      hide *;
      GraphKeys(old', s);
    }
    IncomingNew(g, s.next, []);
    IncomingNew(k, v, Kept(old'[v]));
    NoReferencesToNext(old', s);
    assert forall n :: n in s.f.Values ==> n !in old' && n in s.count && n !in Kept(old'[v]);
    assert forall x :: x in old' ==> x in s.count;
    EnterNewCounts(Incoming(g), extra, s.f.Values, s.count, t.count, multiset(Kept(old'[v])), s.next);
    EnterOldCounts(oldCount, Incoming(k), old'.Keys, s.count, t.count, multiset(Kept(old'[v])));
  }

  lemma GraphKeys(old': Nodes, s: State)
    requires Shape(old', s)
    ensures NewGraph(s.node, s.f).Keys == s.f.Values && KeptGraph(old', s.f).Keys == s.f.Keys
  {
    hide Within, Injective, Kids, Kept;
    assert s.f.Values <= s.node.Keys;
  }

  lemma EnterNewCounts(within: multiset<Ref>, extra: multiset<Ref>, copies: set<Ref>, count: map<Ref, int>, count': map<Ref, int>, kept: multiset<Ref>, n: Ref)
    requires NewCounts(within, extra, copies, count) && n !in copies && within[n] == 0
    requires count'.Keys == count.Keys + {n} && count'[n] == 1
    requires forall x :: x in count ==> count'[x] == count[x] + kept[x]
    requires forall x :: x in copies ==> x !in kept
    ensures NewCounts(within + multiset([]), extra + multiset{n}, copies + {n}, count')
  {
  }

  lemma EnterOldCounts(oldCount: map<Ref, int>, kept: multiset<Ref>, olds: set<Ref>, count: map<Ref, int>, count': map<Ref, int>, more: multiset<Ref>)
    requires OldCounts(oldCount, kept, olds, count)
    requires count.Keys <= count'.Keys && forall x :: x in count ==> count'[x] == count[x] + more[x]
    ensures OldCounts(oldCount, kept + more, olds, count')
  {
  }

  lemma EnterKeepsFinished(old': Nodes, s: State, t: State, done: set<Ref>, v: Ref)
    requires Shape(old', s) && Shape(old', t) && Finished(old', s, done) && v in old' && v !in s.f
    requires s.next !in s.f.Values
    requires t.node == s.node[s.next := Shell(old'[v])] && t.f == s.f[v := s.next]
    ensures Finished(old', t, done)
  {
    forall u | u in done ensures u in t.f && Copies(t.f, old'[u], t.node[t.f[u]]) {
      assert s.f[u] in s.f.Values;
      CopiesExtends(s.f, t.f, old'[u], s.node[s.f[u]]);
    }
  }

  lemma CopiesExtends(f: Memo, f': Memo, n: Node, m: Node)
    requires Copies(f, n, m) && Extends(f, f')
    ensures Copies(f', n, m)
  {
  }

  /** Filling in a further component of an object under construction. */
  lemma AttachKeepsInv(old': Nodes, oldCount: map<Ref, int>, s: State, t: State, done: set<Ref>, extra: multiset<Ref>, v: Ref, m: Node, c: Option<Ref>)
    requires Inv(old', oldCount, s, done, extra + Plus(c)) && v in s.f && v !in done
    requires forall x :: x in extra ==> x in s.f.Values
    requires t == s.(node := s.node[s.f[v] := m])
    requires Present(Kids(m)) == Present(Kids(s.node[s.f[v]])) + Opt(c)
    requires Within(Kids(m), s.f.Values)
    ensures Inv(old', oldCount, t, done, extra)
  {
    hide Copies, Within, Incoming, KeptGraph, NewGraph, NewCounts, OldCounts, Kids, Kept, Injective, Present;
    var n := s.f[v];
    assert n in s.f.Values && n in s.node;
    assert t.node.Keys == s.node.Keys;
    assert Shape(old', t);
    AttachCounts(old', oldCount, s, t, extra, n, m, c);
    AttachFinished(old', s, t, done, v, m);
  }

  lemma AttachGraph(s: State, t: State, n: Ref, m: Node, c: Option<Ref>)
    requires s.f.Values <= s.node.Keys && s.f.Values <= t.node.Keys && n in s.f.Values
    requires t == s.(node := s.node[n := m])
    requires Present(Kids(m)) == Present(Kids(s.node[n])) + Opt(c)
    ensures Incoming(NewGraph(t.node, t.f)) == Incoming(NewGraph(s.node, s.f)) + Plus(c)
  {
    hide Incoming, Kids, Present;
    var g: Graph, h: Graph := NewGraph(s.node, s.f), NewGraph(t.node, t.f);
    assert h == g[n := Present(Kids(m))];
    IncomingAppend(g, n, Present(Kids(m)), c);
  }

  lemma NewCountsShift(within: multiset<Ref>, within': multiset<Ref>, extra: multiset<Ref>, plus: multiset<Ref>, copies: set<Ref>, count: map<Ref, int>)
    requires NewCounts(within, extra + plus, copies, count) && within' == within + plus && forall n :: n in extra ==> n in copies
    ensures NewCounts(within', extra, copies, count)
  {
  }

  lemma AttachCounts(old': Nodes, oldCount: map<Ref, int>, s: State, t: State, extra: multiset<Ref>, n: Ref, m: Node, c: Option<Ref>)
    requires Shape(old', s) && Shape(old', t) && Counted(old', oldCount, s, extra + Plus(c)) && n in s.f.Values
    requires forall x :: x in extra ==> x in s.f.Values
    requires t == s.(node := s.node[n := m])
    requires Present(Kids(m)) == Present(Kids(s.node[n])) + Opt(c)
    ensures Counted(old', oldCount, t, extra)
  {
    hide Copies, Within, Incoming, KeptGraph, NewGraph, Kids, Kept, Injective, Present, NewCounts, OldCounts;
    AttachGraph(s, t, n, m, c);
    var g: Graph, h: Graph := NewGraph(s.node, s.f), NewGraph(t.node, t.f);
    NewCountsShift(Incoming(g), Incoming(h), extra, Plus(c), s.f.Values, s.count);
  }

  lemma AttachFinished(old': Nodes, s: State, t: State, done: set<Ref>, v: Ref, m: Node)
    requires Shape(old', s) && Shape(old', t) && Finished(old', s, done) && v in s.f && v !in done
    requires t == s.(node := s.node[s.f[v] := m])
    ensures Finished(old', t, done)
  {
    hide Copies, Within, Kids, Kept;
    forall u | u in done
      ensures u in t.f && Copies(t.f, old'[u], t.node[t.f[u]])
    {
      assert s.f[u] != s.f[v];
    }
  }

  /** When all components are in place the object is a copy. */
  lemma CompleteKeepsInv(old': Nodes, oldCount: map<Ref, int>, s: State, done: set<Ref>, extra: multiset<Ref>, v: Ref)
    requires Inv(old', oldCount, s, done, extra) && v in s.f
    requires Copies(s.f, old'[v], s.node[s.f[v]])
    ensures Inv(old', oldCount, s, done + {v}, extra)
  {
    hide Copies;
  }

  /** Copies f' added to f are of values reachable from v. */
  ghost predicate OnlyReachable(old': Nodes, f: Memo, f': Memo, v: Ref) {
    forall u :: u in f' && u !in f ==> Reaches(Successors(old'), v, u)
  }

  lemma KidReachable(old': Nodes, f: Memo, f': Memo, v: Ref, c: Option<Ref>)
    requires v in old' && c in Kids(old'[v])
    requires c.Some? ==> OnlyReachable(old', f, f', c.value)
    requires c.None? ==> f'.Keys <= f.Keys
    ensures OnlyReachable(old', f, f', v)
  {
    hide Kids, Present, Reaches;
    var g: Graph := Successors(old');
    if c.Some? {
      PresentMember(Kids(old'[v]), c.value);
      forall u | u in f' && u !in f
        ensures Reaches(g, v, u)
      {
        ReachesFirst(g, v, c.value, u);
      }
    }
  }

  /** The memo table as a map. */
  ghost predicate Agrees(memo: seq<(Ref, Ref)>, f: Memo) {
    && (forall p :: p in memo ==> p.0 in f && f[p.0] == p.1)
    && (forall u :: u in f ==> (u, f[u]) in memo)
  }

  /** What the copying of one component started from (s), where it stands (t), with component r. */
  ghost predicate Copied(old': Nodes, oldCount: map<Ref, int>, s: State, t: State, done: set<Ref>, extra: multiset<Ref>, v: Option<Ref>, r: Option<Ref>) {
    && Shape(old', s)
    && Inv(old', oldCount, t, NewlyDone(s, t, done), extra + Plus(r))
    && Progress(old', s, t, done)
    && (v.Some? ==> v.value in t.f && OnlyReachable(old', s.f, t.f, v.value))
    && (v.None? ==> t == s)
    && r == MapOne(t.f, v)
  }

  /** The copy nv of v was allocated in s; in t some of its components are in place. */
  ghost predicate Building(old': Nodes, oldCount: map<Ref, int>, s: State, t: State, done: set<Ref>, extra: multiset<Ref>, v: Ref, nv: Ref) {
    && Shape(old', s) && Shape(old', t) && Extends(s.f, t.f)
    && v in old' && v in s.f && s.f[v] == nv && v !in done
    && Inv(old', oldCount, t, NewlyDone(s, t, done), extra + multiset{nv})
    && Untouched(s, t, done + {v})
    && OnlyReachable(old', s.f, t.f, v)
  }

  lemma BuildingStarts(old': Nodes, oldCount: map<Ref, int>, s: State, done: set<Ref>, extra: multiset<Ref>, v: Ref, nv: Ref)
    requires Inv(old', oldCount, s, done, extra + multiset{nv}) && v in s.f && s.f[v] == nv && v !in done
    ensures Building(old', oldCount, s, s, done, extra, v, nv)
  {
    hide Counted, Finished, Within, Injective;
    assert NewlyDone(s, s, done) == done;
  }

  /** The component c of v was copied to r, and r made a component of nv. */
  lemma BuildingGoesOn(old': Nodes, oldCount: map<Ref, int>, s: State, t: State, t': State, t'': State, done: set<Ref>, extra: multiset<Ref>, v: Ref, nv: Ref, c: Option<Ref>, r: Option<Ref>, m: Node)
    requires Building(old', oldCount, s, t, done, extra, v, nv)
    requires Copied(old', oldCount, t, t', NewlyDone(s, t, done), extra + multiset{nv}, c, r)
    requires c in Kids(old'[v]) && nv in t'.node && nv in t.node
    requires t'' == t'.(node := t'.node[nv := m])
    requires Present(Kids(m)) == Present(Kids(t'.node[nv])) + Opt(r)
    requires Within(Kids(m), t'.f.Values)
    ensures Building(old', oldCount, s, t'', done, extra, v, nv)
    ensures Extends(t.f, t''.f) && t'.node[nv] == t.node[nv]
  {
    hide Within, OnlyReachable, Kids, Present, Inv, Shape, Untouched;
    assert Shape(old', t') by { InvShape(old', oldCount, t', NewlyDone(t, t', NewlyDone(s, t, done)), extra + multiset{nv} + Plus(r)); }
    assert t'.f[v] == nv;
    assert NewlyDone(t, t', NewlyDone(s, t, done)) == NewlyDone(s, t', done);
    BuildingInv(old', oldCount, t', t'', NewlyDone(s, t', done), extra, v, nv, r, m);
    BuildingReach(old', s.f, t.f, t'.f, v, c);
    assert NewlyDone(s, t'', done) == NewlyDone(s, t', done);
    InvShape(old', oldCount, t'', NewlyDone(s, t'', done), extra + multiset{nv});
    InjectiveAt(old', s, v);
    BuildingFrame(s, t, t', t'', done, v, nv, m);
  }

  lemma BuildingFrame(s: State, t: State, t': State, t'': State, done: set<Ref>, v: Ref, nv: Ref, m: Node)
    requires Extends(s.f, t.f) && v in s.f && s.f[v] == nv
    requires forall u :: u in s.f && u != v ==> s.f[u] != nv
    requires Untouched(s, t, done + {v}) && Untouched(t, t', NewlyDone(s, t, done)) && v !in done
    requires t''.node == t'.node[nv := m] && nv in t.node && nv in t'.node
    ensures Untouched(s, t'', done + {v}) && t'.node[nv] == t.node[nv]
  {
    forall u | u in s.f && u !in done + {v}
      ensures s.f[u] in s.node && s.f[u] in t''.node && t''.node[s.f[u]] == s.node[s.f[u]]
    {
      assert u in t.f && t.f[u] == s.f[u];
      assert u !in NewlyDone(s, t, done);
    }
    assert t.f[v] == nv && v !in NewlyDone(s, t, done);
  }

  lemma InjectiveAt(old': Nodes, s: State, v: Ref)
    requires Shape(old', s) && v in s.f
    ensures forall u :: u in s.f && u != v ==> s.f[u] != s.f[v]
  {
  }

  lemma BuildingInv(old': Nodes, oldCount: map<Ref, int>, t: State, t': State, done: set<Ref>, extra: multiset<Ref>, v: Ref, nv: Ref, r: Option<Ref>, m: Node)
    requires Inv(old', oldCount, t, done, extra + multiset{nv} + Plus(r)) && v in t.f && t.f[v] == nv && v !in done
    requires t' == t.(node := t.node[nv := m])
    requires Present(Kids(m)) == Present(Kids(t.node[nv])) + Opt(r)
    requires Within(Kids(m), t.f.Values)
    ensures Inv(old', oldCount, t', done, extra + multiset{nv})
  {
    hide Within, Injective, Copies, Kids, Present, NewGraph, KeptGraph, Incoming, OldCounts, Finished;
    assert forall x :: x in extra + multiset{nv} ==> x in extra + multiset{nv} + Plus(r);
    AttachKeepsInv(old', oldCount, t, t', done, extra + multiset{nv}, v, m, r);
  }

  lemma BuildingReach(old': Nodes, f: Memo, f': Memo, f'': Memo, v: Ref, c: Option<Ref>)
    requires v in old' && c in Kids(old'[v]) && Extends(f, f') && Extends(f', f'')
    requires OnlyReachable(old', f, f', v)
    requires c.Some? ==> OnlyReachable(old', f', f'', c.value)
    requires c.None? ==> f'' == f'
    ensures OnlyReachable(old', f, f'', v)
  {
    hide Kids, Reaches;
    KidReachable(old', f', f'', v, c);
  }

  /** With all components in place the value is copied. */
  lemma BuildingEnds(old': Nodes, oldCount: map<Ref, int>, s0: State, s: State, t: State, done: set<Ref>, extra: multiset<Ref>, v: Ref, nv: Ref)
    requires Building(old', oldCount, s, t, done, extra, v, nv)
    requires Shape(old', s0) && s.f == s0.f[v := nv] && v !in s0.f && nv !in s0.f.Values && Progress(old', s0, s, done)
    requires nv in t.node && Copies(t.f, old'[v], t.node[nv])
    ensures Copied(old', oldCount, s0, t, done, extra, Some(v), Some(nv))
  {
    hide Copies, Inv, OnlyReachable, Untouched, Shape;
    CompleteKeepsInv(old', oldCount, t, NewlyDone(s, t, done), extra + multiset{nv}, v);
    assert NewlyDone(s, t, done) + {v} == NewlyDone(s0, t, done);
    assert Plus(Some(nv)) == multiset{nv};
    FrameFromStart(s0, s, t, done, v);
    ReachFromStart(old', s0.f, s.f, t.f, v);
  }

  lemma FrameFromStart(s0: State, s: State, t: State, done: set<Ref>, v: Ref)
    requires Extends(s0.f, s.f) && v !in s0.f
    requires Untouched(s0, s, done) && Untouched(s, t, done + {v})
    ensures Untouched(s0, t, done)
  {
    forall u | u in s0.f && u !in done
      ensures s0.f[u] in s0.node && s0.f[u] in t.node && t.node[s0.f[u]] == s0.node[s0.f[u]]
    {
      assert u in s.f && s.f[u] == s0.f[u];
    }
  }

  lemma ReachFromStart(old': Nodes, f: Memo, f': Memo, f'': Memo, v: Ref)
    requires f'.Keys == f.Keys + {v} && OnlyReachable(old', f', f'', v)
    ensures OnlyReachable(old', f, f'', v)
  {
    hide Reaches;
    ReachesSelf(Successors(old'), v);
  }

  lemma NothingCopied(old': Nodes, oldCount: map<Ref, int>, s: State, done: set<Ref>, extra: multiset<Ref>)
    requires Inv(old', oldCount, s, done, extra)
    ensures Copied(old', oldCount, s, s, done, extra, None, None)
  {
    hide Within, Injective, Finished, Counted;
    assert NewlyDone(s, s, done) == done;
    assert extra + Plus(None) == extra;
  }

  lemma HitIsCopied(old': Nodes, oldCount: map<Ref, int>, s: State, t: State, done: set<Ref>, extra: multiset<Ref>, v: Ref)
    requires Inv(old', oldCount, s, done, extra) && v in s.f && s.f[v] in s.count
    requires t == s.(count := s.count[s.f[v] := s.count[s.f[v]] + 1])
    ensures Copied(old', oldCount, s, t, done, extra, Some(v), Some(s.f[v]))
  {
    hide Within, Injective, Counted, Copies, Finished;
    assert s.f[v] in s.f.Values;
    HitKeepsInv(old', oldCount, s, t, done, extra, s.f[v]);
    assert Plus(Some(s.f[v])) == multiset{s.f[v]};
  }

  /** What is left to copy. */
  lemma LessLeft(old': Nodes, f: Memo, f': Memo)
    requires f.Keys <= f'.Keys
    ensures |old'.Keys - f'.Keys| <= |old'.Keys - f.Keys|
    ensures forall v :: v in old' && v in f' && v !in f ==> |old'.Keys - f'.Keys| < |old'.Keys - f.Keys|
  {
    var a, b := old'.Keys - f'.Keys, old'.Keys - f.Keys;
    SubsetSize(a, b);
    forall v | v in old' && v in f' && v !in f
      ensures |a| < |b|
    {
      SubsetSize(a, b - {v});
    }
  }

  lemma MapsToAppend(f: Memo, f': Memo, rs: seq<Option<Ref>>, qs: seq<Option<Ref>>, c: Option<Ref>)
    requires MapsTo(f, rs, qs) && Extends(f, f') && (c.Some? ==> c.value in f')
    ensures MapsTo(f', rs + [c], qs + [MapOne(f', c)])
  {
  }

  lemma MapsToWithin(f: Memo, rs: seq<Option<Ref>>, qs: seq<Option<Ref>>)
    requires MapsTo(f, rs, qs)
    ensures Within(qs, f.Values)
  {
    forall i | 0 <= i < |qs| && qs[i].Some?
      ensures qs[i].value in f.Values
    {
      assert rs[i].value in f;
    }
  }

  lemma CopyIsThere(old': Nodes, s: State, v: Ref)
    requires Shape(old', s) && v in old'
    ensures v in s.node && s.node[v] == old'[v]
    ensures v in s.f ==> s.f[v] in s.count && s.f[v] in s.node && s.f[v] in s.f.Values
  {
    hide Within, Injective;
    if v in s.f {
      assert s.f[v] in s.f.Values;
    }
  }

  lemma InvShape(old': Nodes, oldCount: map<Ref, int>, s: State, done: set<Ref>, extra: multiset<Ref>)
    requires Inv(old', oldCount, s, done, extra)
    ensures Shape(old', s)
  {
  }

  lemma MapsToNothing(f: Memo)
    ensures MapsTo(f, [], [])
  {
  }

  lemma ReadyToAllocate(old': Nodes, oldCount: map<Ref, int>, s: State, done: set<Ref>, extra: multiset<Ref>, v: Ref)
    requires Inv(old', oldCount, s, done, extra) && Wellformed(old') && v in old'
    ensures Shape(old', s) && v in s.node && s.node[v] == old'[v]
    ensures (forall r :: r in Kept(old'[v]) ==> r in s.count) && s.next !in s.count && s.count.Keys == s.node.Keys
  {
    hide Kept, Within, Injective, Counted, Finished;
    assert s.next !in s.node;
  }

  lemma TupleCopies(f: Memo, n: Node, m: Node)
    requires n.Tuple? && m.Tuple? && m.typeobj == n.typeobj && MapsTo(f, n.values, m.values)
    ensures Copies(f, n, m)
  {
  }

  lemma KidOfTuple(n: Node, i: nat)
    requires n.Tuple? && i < |n.values|
    ensures n.values[i] in Kids(n)
    ensures n.values[..i + 1] == n.values[..i] + [n.values[i]]
  {
  }

  lemma LeafCopies(f: Memo, n: Node)
    requires !n.Tuple? && !n.Pointer?
    ensures Copies(f, n, Shell(n))
  {
  }

  lemma BuildingParts(old': Nodes, oldCount: map<Ref, int>, s: State, t: State, done: set<Ref>, extra: multiset<Ref>, v: Ref, nv: Ref, c: Option<Ref>)
    requires Building(old', oldCount, s, t, done, extra, v, nv)
    requires Wellformed(old') && c in Kids(old'[v])
    ensures Shape(old', s) && Shape(old', t) && Inv(old', oldCount, t, NewlyDone(s, t, done), extra + multiset{nv})
    ensures c.Some? ==> c.value in old'
    ensures |old'.Keys - t.f.Keys| <= |old'.Keys - s.f.Keys|
  {
    hide Inv, Shape, OnlyReachable, Kids;
    LessLeft(old', s.f, t.f);
  }

  /** Copying a component leaves the object under construction alone. */
  lemma BuildingKept(old': Nodes, oldCount: map<Ref, int>, s: State, t: State, t': State, done: set<Ref>, extra: multiset<Ref>, v: Ref, nv: Ref, c: Option<Ref>, r: Option<Ref>)
    requires Building(old', oldCount, s, t, done, extra, v, nv)
    requires Copied(old', oldCount, t, t', NewlyDone(s, t, done), extra + multiset{nv}, c, r)
    requires nv in t.node
    ensures nv in t'.node && t'.node[nv] == t.node[nv] && Extends(t.f, t'.f)
    ensures r == MapOne(t'.f, c) && (c.Some? ==> c.value in t'.f)
  {
    hide Inv, Shape, OnlyReachable;
    assert t.f[v] == nv && v !in NewlyDone(s, t, done);
  }

  lemma TupleGrows(old': Nodes, oldCount: map<Ref, int>, s: State, t: State, t': State, t'': State, done: set<Ref>, extra: multiset<Ref>, v: Ref, nv: Ref, c: Option<Ref>, r: Option<Ref>, rs: seq<Option<Ref>>)
    requires Building(old', oldCount, s, t, done, extra, v, nv) && c in Kids(old'[v])
    requires Copied(old', oldCount, t, t', NewlyDone(s, t, done), extra + multiset{nv}, c, r)
    requires nv in t.node && nv in t'.node && t'.node[nv] == t.node[nv] && t.node[nv].Tuple?
    requires Extends(t.f, t'.f) && r == MapOne(t'.f, c) && (c.Some? ==> c.value in t'.f)
    requires MapsTo(t.f, rs, t.node[nv].values)
    requires t'' == t'.(node := t'.node[nv := Tuple(t'.node[nv].typeobj, t'.node[nv].values + [r])])
    ensures Building(old', oldCount, s, t'', done, extra, v, nv)
    ensures MapsTo(t''.f, rs + [c], t''.node[nv].values)
  {
    hide Within, Building, Copied, MapsTo, MapOne, Present, Extends;
    var qs := t.node[nv].values;
    MapsToAppend(t.f, t'.f, rs, qs, c);
    MapsToWithin(t'.f, rs + [c], qs + [r]);
    PresentJoin(qs, [r]);
    PresentOne(r);
    BuildingGoesOn(old', oldCount, s, t, t', t'', done, extra, v, nv, c, r, t''.node[nv]);
  }

  lemma PresentOne(r: Option<Ref>)
    ensures Present([r]) == Opt(r)
  {
  }

  lemma PointerSet(old': Nodes, oldCount: map<Ref, int>, s: State, t: State, t': State, done: set<Ref>, extra: multiset<Ref>, v: Ref, nv: Ref, c: Option<Ref>, r: Option<Ref>)
    requires Building(old', oldCount, s, s, done, extra, v, nv) && old'[v].Pointer? && old'[v].target == c
    requires Copied(old', oldCount, s, t, NewlyDone(s, s, done), extra + multiset{nv}, c, r)
    requires nv in s.node && nv in t.node && t.node[nv] == s.node[nv] && t.node[nv] == Pointer(old'[v].typeobj, None)
    requires Extends(s.f, t.f) && r == MapOne(t.f, c) && (c.Some? ==> c.value in t.f)
    requires t' == t.(node := t.node[nv := Pointer(old'[v].typeobj, r)])
    ensures Building(old', oldCount, s, t', done, extra, v, nv)
    ensures Copies(t'.f, old'[v], t'.node[nv])
  {
    hide Building, Copied, Extends, Within, MapOne;
    MapsToNothing(s.f);
    MapsToAppend(s.f, t.f, [], [], c);
    assert [c] == [] + [c] && [r] == [] + [r];
    MapsToWithin(t.f, [c], [r]);
    PresentOne(r);
    PresentOne(None);
    BuildingGoesOn(old', oldCount, s, s, t, t', done, extra, v, nv, c, r, t'.node[nv]);
  }

  /** With f from originals to copies: exactly the values reachable from v were copied, each to an
      object of its own; the copies refer to each other as the originals do; nothing else changed. */
  ghost predicate IsCopy(old': Nodes, new': Nodes, f: Memo, v: Option<Ref>, r: Option<Ref>) {
    && (forall u :: u in f <==> v.Some? && Reaches(Successors(old'), v.value, u))
    && f.Keys <= old'.Keys && Injective(f) && f.Values !! old'.Keys
    && new'.Keys == old'.Keys + f.Values
    && (forall x :: x in old' ==> new'[x] == old'[x])
    && (forall u :: u in f ==> f[u] in f.Values && Copies(f, old'[u], new'[f[u]]))
    && r == if v.Some? && v.value in f then Some(f[v.value]) else None
  }

  /** Each copy is counted once per reference from another copy, and once more if it is the result;
      what copies share with originals is counted once more for each such reference. */
  ghost predicate CountsAfterCopy(old': Nodes, oldCount: map<Ref, int>, new': Nodes, count: map<Ref, int>, f: Memo, r: Option<Ref>)
    requires f.Keys <= old'.Keys && f.Values <= new'.Keys
  {
    && count.Keys == new'.Keys
    && NewCounts(Incoming(NewGraph(new', f)), Plus(r), f.Values, count)
    && OldCounts(oldCount, Incoming(KeptGraph(old', f)), old'.Keys, count)
  }

  lemma StartsWithInv(old': Nodes, oldCount: map<Ref, int>, s: State)
    requires s.node == old' && s.count == oldCount && s.f == map[]
    requires oldCount.Keys == old'.Keys && forall x :: x in old' ==> x < s.next
    ensures Inv(old', oldCount, s, {}, multiset{})
  {
    assert NewGraph(s.node, s.f) == map[];
    assert KeptGraph(old', s.f) == map[];
  }

  /** A set closed under copying that holds v and only what v reaches is what v reaches. */
  lemma CopiedExactlyReachable(old': Nodes, f: Memo, t: State, v: Ref)
    requires Shape(old', t) && Finished(old', t, t.f.Keys) && v in t.f && OnlyReachable(old', map[], t.f, v)
    ensures forall u :: u in t.f <==> Reaches(Successors(old'), v, u)
  {
    hide Reaches, Injective;
    var g: Graph := Successors(old');
    assert Closed(g, t.f.Keys) by {
      forall a, b | a in t.f.Keys && Edge(g, a, b)
        ensures b in t.f.Keys
      {
        PresentMember(Kids(old'[a]), b);
        assert Copies(t.f, old'[a], t.node[t.f[a]]);
      }
    }
    forall u | Reaches(g, v, u)
      ensures u in t.f
    {
      ClosedContains(g, t.f.Keys, v, u);
    }
  }

  lemma CopyIsDone(old': Nodes, oldCount: map<Ref, int>, s: State, t: State, v: Option<Ref>, r: Option<Ref>)
    requires s.f == map[] && s.node == old' && Shape(old', s)
    requires Inv(old', oldCount, t, t.f.Keys, Plus(r))
    requires v.Some? ==> v.value in t.f && OnlyReachable(old', s.f, t.f, v.value)
    requires v.None? ==> t == s
    requires r == MapOne(t.f, v)
    ensures IsCopy(old', t.node, t.f, v, r)
    ensures CountsAfterCopy(old', oldCount, t.node, t.count, t.f, r)
    ensures forall x :: x in t.node ==> x < t.next
  {
    hide Within, Copies, Counted, OnlyReachable, Reaches, IsCopy, Shape, MapOne, CountsAfterCopy;
    CountedAfterCopy(old', oldCount, t, r);
    ShapeAfterCopy(old', t);
    if v.Some? {
      CopiedExactlyReachable(old', t.f, t, v.value);
      SomethingCopied(old', t, v.value);
    } else {
      NothingToCopy(old', t);
    }
    assert r == if v.Some? && v.value in t.f then Some(t.f[v.value]) else None by {
      MapOneOf(t.f, v);
    }
  }

  lemma MapOneOf(f: Memo, v: Option<Ref>)
    requires v.Some? ==> v.value in f
    ensures MapOne(f, v) == if v.Some? && v.value in f then Some(f[v.value]) else None
  {
  }

  lemma ShapeAfterCopy(old': Nodes, t: State)
    requires Shape(old', t)
    ensures forall x :: x in t.node ==> x < t.next
  {
    hide Within, Injective;
  }

  lemma NothingToCopy(old': Nodes, t: State)
    requires t.node == old' && t.f == map[]
    ensures IsCopy(old', t.node, t.f, None, None)
  {
    hide Copies, Reaches;
  }

  lemma SomethingCopied(old': Nodes, t: State, v: Ref)
    requires Shape(old', t) && Finished(old', t, t.f.Keys) && v in t.f
    requires forall u :: u in t.f <==> Reaches(Successors(old'), v, u)
    ensures IsCopy(old', t.node, t.f, Some(v), Some(t.f[v]))
  {
    hide Within, Copies, Reaches, Injective;
    assert forall u :: u in t.f ==> t.f[u] in t.f.Values;
  }

  lemma CountedAfterCopy(old': Nodes, oldCount: map<Ref, int>, t: State, r: Option<Ref>)
    requires Shape(old', t) && Counted(old', oldCount, t, Plus(r))
    ensures CountsAfterCopy(old', oldCount, t.node, t.count, t.f, r)
  {
    hide Within, Injective, NewCounts, OldCounts;
  }

  /** The values and their counts, and the table of values already copied. */
  class Copier {
    var node: Nodes
    var count: map<Ref, int>
    var next: Ref
    var memo: seq<(Ref, Ref)>
    ghost var f: Memo

    constructor (node: Nodes, count: map<Ref, int>, next: Ref)
      ensures this.node == node && this.count == count && this.next == next
    {
      this.node, this.count, this.next, this.memo, this.f := node, count, next, [], map[];
    }

    ghost function St(): State
      reads this
    {
      State(node, count, next, f)
    }

    method AddReferences(rs: seq<Ref>)
      requires forall r :: r in rs ==> r in count
      modifies this`count
      ensures count.Keys == old(count.Keys)
      ensures forall x :: x in count ==> count[x] == old(count)[x] + multiset(rs)[x]
    {
      var i := 0;
      while i < |rs|
        invariant 0 <= i <= |rs| && count.Keys == old(count.Keys)
        invariant forall x :: x in count ==> count[x] == old(count)[x] + multiset(rs[..i])[x]
      {
        assert rs[..i + 1] == rs[..i] + [rs[i]];
        count := count[rs[i] := count[rs[i]] + 1];
        i := i + 1;
      }
      assert rs[..|rs|] == rs;
    }

    /** The copy recorded for v, if any. */
    method Lookup(v: Ref) returns (r: Option<Ref>)
      requires Agrees(memo, f)
      ensures r == if v in f then Some(f[v]) else None
    {
      var i := 0;
      while i < |memo|
        invariant 0 <= i <= |memo|
        invariant forall j :: 0 <= j < i ==> memo[j].0 != v
      {
        if memo[i].0 == v {
          return Some(memo[i].1);
        }
        i := i + 1;
      }
      return None;
    }

    /** A new object for v, without components yet, recorded in the memo. */
    method Allocate(ghost old': Nodes, ghost oldCount: map<Ref, int>, ghost done: set<Ref>, ghost extra: multiset<Ref>, v: Ref) returns (nv: Ref)
      requires Wellformed(old') && v in old' && v !in f && Agrees(memo, f)
      requires Inv(old', oldCount, St(), done, extra)
      modifies this
      ensures Agrees(memo, f) && f == old(f)[v := nv] && nv in node && node[nv] == Shell(old'[v])
      ensures Inv(old', oldCount, St(), done, extra + multiset{nv})
      ensures Progress(old', old(St()), St(), done) && v !in done && nv !in old(f.Values)
    {
      hide Inv, Shape, Wellformed, Copies, Within, Incoming, Kids, Kept, Present, Progress, Shell;
      ghost var s := St();
      ReadyToAllocate(old', oldCount, s, done, extra, v);
      nv := next;
      AddReferences(Kept(node[v]));
      count := count[nv := 1];
      node := node[nv := Shell(node[v])];
      next := next + 1;
      memo := memo + [(v, nv)];
      f := f[v := nv];
      EnterKeepsInv(old', oldCount, s, St(), done, extra, v);
    }

    /** Copies a component: the object already made for it, or a new one. */
    method CopyInternal(ghost old': Nodes, ghost oldCount: map<Ref, int>, ghost done: set<Ref>, ghost extra: multiset<Ref>, v: Option<Ref>) returns (r: Option<Ref>)
      requires Wellformed(old') && (v.Some? ==> v.value in old') && Agrees(memo, f)
      requires Inv(old', oldCount, St(), done, extra)
      modifies this
      ensures Agrees(memo, f) && Copied(old', oldCount, old(St()), St(), done, extra, v, r)
      decreases |old'.Keys - f.Keys|, 1
    {
      hide Inv, Shape, Building, Copied, Wellformed, Copies, Present, Agrees, Progress, Shell, Extends, MapOne, NewlyDone, Plus, OnlyReachable, Within, Kept, Kids;
      ghost var s := St();
      InvShape(old', oldCount, s, done, extra);
      if v.None? {
        NothingCopied(old', oldCount, s, done, extra);
        return None;
      }
      r := Lookup(v.value);
      if r.None? {
        var nv := CopyNew(old', oldCount, done, extra, v.value);
        return Some(nv);
      }
      CopyIsThere(old', s, v.value);
      count := count[r.value := count[r.value] + 1];
      HitIsCopied(old', oldCount, s, St(), done, extra, v.value);
    }

    /** A value met for the first time. */
    method CopyNew(ghost old': Nodes, ghost oldCount: map<Ref, int>, ghost done: set<Ref>, ghost extra: multiset<Ref>, v: Ref) returns (nv: Ref)
      requires Wellformed(old') && v in old' && v !in f && Agrees(memo, f)
      requires Inv(old', oldCount, St(), done, extra)
      modifies this
      ensures Agrees(memo, f) && Copied(old', oldCount, old(St()), St(), done, extra, Some(v), Some(nv))
      decreases |old'.Keys - f.Keys|, 0
    {
      hide Inv, Shape, Building, Copied, Wellformed, Copies, Present, Agrees, Progress, Shell, Extends, MapOne, NewlyDone, Plus, OnlyReachable, Within, Kept, Kids;
      ghost var s := St();
      InvShape(old', oldCount, s, done, extra);
      nv := Allocate(old', oldCount, done, extra, v);
      ghost var s1 := St();
      InvShape(old', oldCount, s1, done, extra + multiset{nv});
      CopyIsThere(old', s1, v);
      BuildingStarts(old', oldCount, s1, done, extra, v, nv);
      LessLeft(old', s.f, f);
      match node[v] {
        case Tuple(_, vs) =>
          CopyValues(old', oldCount, done, extra, v, nv, vs);
        case Pointer(_, t) =>
          CopyTarget(old', oldCount, done, extra, v, nv, t);
        case _ =>
          LeafCopies(f, old'[v]);
      }
      BuildingEnds(old', oldCount, s, s1, St(), done, extra, v, nv);
    }

    method CopyValues(ghost old': Nodes, ghost oldCount: map<Ref, int>, ghost done: set<Ref>, ghost extra: multiset<Ref>, ghost v: Ref, nv: Ref, vs: seq<Option<Ref>>)
      requires Wellformed(old') && v in old' && Agrees(memo, f)
      requires Building(old', oldCount, St(), St(), done, extra, v, nv)
      requires old'[v].Tuple? && vs == old'[v].values && nv in node && node[nv] == Shell(old'[v])
      modifies this
      ensures Agrees(memo, f) && Building(old', oldCount, old(St()), St(), done, extra, v, nv)
      ensures nv in node && Copies(f, old'[v], node[nv])
      decreases |old'.Keys - f.Keys|, 2
    {
      hide Building, Inv, Shape, Copied, Wellformed, Present, MapOne, MapsTo, Extends, Within, Agrees, Progress, NewlyDone, Plus, OnlyReachable, Kept, Kids, Copies;
      ghost var s := St();
      var i := 0;
      MapsToNothing(f);
      while i < |vs|
        invariant 0 <= i <= |vs| && Agrees(memo, f) && Building(old', oldCount, s, St(), done, extra, v, nv)
        invariant nv in node && node[nv].Tuple? && node[nv].typeobj == old'[v].typeobj
        invariant MapsTo(f, vs[..i], node[nv].values)
      {
        ghost var t := St();
        KidOfTuple(old'[v], i);
        BuildingParts(old', oldCount, s, t, done, extra, v, nv, vs[i]);
        var c := CopyInternal(old', oldCount, NewlyDone(s, t, done), extra + multiset{nv}, vs[i]);
        ghost var t' := St();
        BuildingKept(old', oldCount, s, t, t', done, extra, v, nv, vs[i], c);
        node := node[nv := Tuple(node[nv].typeobj, node[nv].values + [c])];
        TupleGrows(old', oldCount, s, t, t', St(), done, extra, v, nv, vs[i], c, vs[..i]);
        i := i + 1;
      }
      assert vs[..i] == vs;
      TupleCopies(f, old'[v], node[nv]);
    }

    method CopyTarget(ghost old': Nodes, ghost oldCount: map<Ref, int>, ghost done: set<Ref>, ghost extra: multiset<Ref>, ghost v: Ref, nv: Ref, target: Option<Ref>)
      requires Wellformed(old') && v in old' && Agrees(memo, f)
      requires Building(old', oldCount, St(), St(), done, extra, v, nv)
      requires old'[v].Pointer? && target == old'[v].target && nv in node && node[nv] == Shell(old'[v])
      modifies this
      ensures Agrees(memo, f) && Building(old', oldCount, old(St()), St(), done, extra, v, nv)
      ensures nv in node && Copies(f, old'[v], node[nv])
      decreases |old'.Keys - f.Keys|, 2
    {
      hide Building, Inv, Shape, Copied, Wellformed, Present, MapOne, MapsTo, Extends, Within, Agrees, Copies, Progress, NewlyDone, Plus, OnlyReachable, Kept;
      ghost var s := St();
      BuildingParts(old', oldCount, s, s, done, extra, v, nv, target);
      var c := CopyInternal(old', oldCount, NewlyDone(s, s, done), extra + multiset{nv}, target);
      ghost var t := St();
      BuildingKept(old', oldCount, s, s, t, done, extra, v, nv, target, c);
      node := node[nv := Pointer(node[nv].typeobj, c)];
      PointerSet(old', oldCount, s, t, St(), done, extra, v, nv, target, c);
    }

    /** The copy of a whole value. The table starts empty and is thrown away afterwards. */
    method Copy(v: Option<Ref>) returns (r: Option<Ref>)
      requires Wellformed(node) && count.Keys == node.Keys && (forall x :: x in node ==> x < next)
      requires v.Some? ==> v.value in node
      modifies this
      ensures IsCopy(old(node), node, f, v, r)
      ensures CountsAfterCopy(old(node), old(count), node, count, f, r)
      ensures CountsWrittenOut(old(node), old(count), node, count, f, r)
      ensures forall x :: x in node ==> x < next
    {
      hide Shape, Counted, Finished, Copies, Wellformed, Progress, OnlyReachable, CountsWrittenOut;
      ghost var old', oldCount := node, count;
      memo, f := [], map[];
      ghost var s := St();
      StartsWithInv(old', oldCount, s);
      r := CopyInternal(old', oldCount, {}, multiset{}, v);
      assert multiset{} + Plus(r) == Plus(r);
      assert NewlyDone(s, St(), {}) == f.Keys;
      CopyIsDone(old', oldCount, s, St(), v, r);
      CopyCountsWrittenOut(old', oldCount, node, count, f, v, r);
    }
  }

  /** The copy refers to itself exactly as the original does, so sharing and cycles are the same. */
  lemma CopyMirrors(old': Nodes, new': Nodes, f: Memo, v: Option<Ref>, r: Option<Ref>, a: Ref, b: Ref)
    requires IsCopy(old', new', f, v, r) && a in f && b in f
    ensures Edge(Successors(new'), f[a], f[b]) <==> Edge(Successors(old'), a, b)
  {
    hide Reaches;
    PresentMember(Kids(old'[a]), b);
    PresentMember(Kids(new'[f[a]]), f[b]);
    assert Copies(f, old'[a], new'[f[a]]);
    SameKids(f, old'[a], new'[f[a]], b);
  }

  lemma SameKids(f: Memo, n: Node, m: Node, b: Ref)
    requires Copies(f, n, m) && Injective(f) && b in f
    ensures Some(f[b]) in Kids(m) <==> Some(b) in Kids(n)
  {
    var rs, qs := Kids(n), Kids(m);
    assert MapsTo(f, rs, qs) by {
      if !n.Tuple? && !n.Pointer? {
        MapsToNothing(f);
      }
    }
    forall i | 0 <= i < |rs|
      ensures rs[i] == Some(b) <==> qs[i] == Some(f[b])
    {
      assert qs[i] == MapOne(f, rs[i]);
    }
    if Some(b) in rs {
      var i :| 0 <= i < |rs| && rs[i] == Some(b);
      assert qs[i] == Some(f[b]);
    }
    if Some(f[b]) in qs {
      var i :| 0 <= i < |qs| && qs[i] == Some(f[b]);
      assert rs[i] == Some(b);
    }
  }

  /** What the result reaches is the copies, and nothing that was there before. */
  lemma CopyIsDisjoint(old': Nodes, new': Nodes, f: Memo, v: Ref, r: Option<Ref>, n: Ref)
    requires IsCopy(old', new', f, Some(v), r) && r.Some?
    ensures Reaches(Successors(new'), r.value, n) <==> n in f.Values
  {
    hide Reaches, Copies;
    var g: Graph, h: Graph := Successors(old'), Successors(new');
    assert Closed(h, f.Values) by {
      forall a, b | a in f.Values && Edge(h, a, b)
        ensures b in f.Values
      {
        var u :| u in f && f[u] == a;
        PresentMember(Kids(new'[a]), b);
        KidsAreCopies(f, old'[u], new'[a]);
      }
    }
    if Reaches(h, r.value, n) {
      ClosedContains(h, f.Values, r.value, n);
    }
    var reached := iset u | u in f && Reaches(h, r.value, f[u]);
    if n in f.Values {
      var u :| u in f && f[u] == n;
      ReachesSelf(h, r.value);
      var s := set w | w in f && w in reached;
      assert Closed(g, s) by {
        forall a, b | a in s && Edge(g, a, b)
          ensures b in s
        {
          ReachesLast(g, v, a, b);
          assert b in f;
          CopyMirrors(old', new', f, Some(v), r, a, b);
          ReachesLast(h, r.value, f[a], f[b]);
        }
      }
      ClosedContains(g, s, v, u);
    }
  }

  lemma KidsAreCopies(f: Memo, n: Node, m: Node)
    requires Copies(f, n, m)
    ensures Within(Kids(m), f.Values)
  {
    if n.Tuple? {
      MapsToWithin(f, n.values, m.values);
    } else if n.Pointer? {
      MapsToWithin(f, [n.target], [m.target]);
    }
  }

  /** All that a value refers to: its components or what it is made of, and its type object. */
  function References(n: Node): seq<Ref> {
    match n
    case Scalar(t, _) => Opt(t)
    case Text(t, _) => Opt(t)
    case Shared(t, _, parts) => Opt(t) + parts
    case Tuple(t, vs) => Present(vs) + Opt(t)
    case Pointer(t, target) => Opt(target) + Opt(t)
  }

  lemma ReferencesAre(n: Node)
    ensures References(n) == Present(Kids(n)) + Kept(n)
  {
    if n.Pointer? {
      PresentOne(n.target);
    } else if !n.Tuple? {
      NothingPresent();
    }
    hide Opt, Present;
  }

  /** All references of the values of g. */
  ghost function AllReferences(g: Nodes): Graph {
    map x | x in g :: References(g[x])
  }

  lemma {:induction false} IncomingSum(a: Graph, b: Graph, c: Graph)
    requires a.Keys == b.Keys == c.Keys && forall x :: x in a ==> c[x] == a[x] + b[x]
    ensures Incoming(c) == Incoming(a) + Incoming(b)
    decreases |a|
  {
    if a.Keys != {} {
      var x :| x in a;
      IncomingSum(a - {x}, b - {x}, c - {x});
      IncomingRemove(a, x);
      IncomingRemove(b, x);
      IncomingRemove(c, x);
    } else {
      assert a == b == c == map[];
    }
  }

  lemma {:induction false} IncomingRenamed(f: Memo, a: Graph, b: Graph)
    requires Injective(f) && a.Keys == f.Keys && b.Keys == f.Values
    requires forall u :: u in f ==> b[f[u]] == a[u]
    ensures Incoming(a) == Incoming(b)
    decreases |a|
  {
    if a.Keys != {} {
      var u :| u in a;
      var e := f - {u};
      assert e.Values == f.Values - {f[u]} by {
        forall n | n in f.Values - {f[u]}
          ensures n in e.Values
        {
          var w :| w in f && f[w] == n;
          assert e[w] == n;
        }
      }
      IncomingRenamed(e, a - {u}, b - {f[u]});
      IncomingRemove(a, u);
      IncomingRemove(b, f[u]);
    } else {
      assert f.Values == {};
      assert a == b == map[];
    }
  }

  /** The references of all values are those of the old ones, those between copies, and those shared. */
  lemma IncomingAfterCopy(old': Nodes, new': Nodes, f: Memo, v: Option<Ref>, r: Option<Ref>)
    requires IsCopy(old', new', f, v, r)
    ensures Incoming(AllReferences(new')) == Incoming(NewGraph(new', f)) + Incoming(KeptGraph(old', f)) + Incoming(AllReferences(old'))
  {
    hide IsCopy, Reaches, Incoming, NewGraph, KeptGraph, AllReferences;
    var h: Graph := AllReferences(new');
    IncomingSplit(h, f.Values);
    AllKeys(old', new', f, v, r);
    var kept: Graph := map n | n in f.Values :: Kept(new'[n]);
    PartsAfterCopy(old', new', f, v, r);
    IncomingSum(NewGraph(new', f), kept, Only(h, f.Values));
    IncomingRenamed(f, KeptGraph(old', f), kept);
  }

  lemma PartsAfterCopy(old': Nodes, new': Nodes, f: Memo, v: Option<Ref>, r: Option<Ref>)
    requires IsCopy(old', new', f, v, r)
    ensures AllReferences(new') - f.Values == AllReferences(old')
    ensures NewGraph(new', f).Keys == f.Values == Only(AllReferences(new'), f.Values).Keys && Injective(f)
    ensures forall n :: n in f.Values ==> Only(AllReferences(new'), f.Values)[n] == NewGraph(new', f)[n] + Kept(new'[n])
    ensures KeptGraph(old', f).Keys == f.Keys
    ensures forall u :: u in f ==> f[u] in f.Values && Kept(new'[f[u]]) == KeptGraph(old', f)[u]
  {
    hide Reaches, Incoming, Kids, Present, Injective, Copies, References;
    forall u | u in f
      ensures f[u] in f.Values && Kept(new'[f[u]]) == Kept(old'[u])
    {
      SameKept(f, old'[u], new'[f[u]]);
    }
    forall n | n in f.Values
      ensures References(new'[n]) == Present(Kids(new'[n])) + Kept(new'[n])
    {
      ReferencesAre(new'[n]);
    }
  }

  lemma SameKept(f: Memo, n: Node, m: Node)
    requires Copies(f, n, m)
    ensures Kept(m) == Kept(n)
  {
  }

  lemma WhereReferencesLead(old': Nodes, new': Nodes, f: Memo, v: Option<Ref>, r: Option<Ref>, x: Ref)
    requires IsCopy(old', new', f, v, r)
    ensures x in Incoming(NewGraph(new', f)) ==> x in f.Values
    ensures x in Incoming(KeptGraph(old', f)) ==> x in Incoming(AllReferences(old'))
  {
    hide Reaches, Incoming, Copies, Kids, Present, References;
    var a: Graph, k: Graph, g: Graph := NewGraph(new', f), KeptGraph(old', f), AllReferences(old');
    IncomingMember(a, x);
    IncomingMember(k, x);
    IncomingMember(g, x);
    if y :| Edge(a, y, x) {
      var u :| u in f && f[u] == y;
      PresentMember(Kids(new'[y]), x);
      KidsAreCopies(f, old'[u], new'[y]);
    }
    if y :| Edge(k, y, x) {
      ReferencesAre(old'[y]);
      assert Edge(g, y, x);
    }
  }

  /** Copying keeps every count exact: after it the result is one more reference held from outside. */
  lemma CopyKeepsCountsExact(old': Nodes, oldCount: map<Ref, int>, new': Nodes, count: map<Ref, int>, f: Memo, v: Option<Ref>, r: Option<Ref>, outside: multiset<Ref>)
    requires IsCopy(old', new', f, v, r) && CountsAfterCopy(old', oldCount, new', count, f, r)
    requires Exact(AllReferences(old'), oldCount, outside)
    ensures Exact(AllReferences(new'), count, outside + Plus(r))
  {
    hide IsCopy, Reaches, NewGraph, KeptGraph, Incoming, Copies, Injective, NewCounts, OldCounts, AllReferences, Exact;
    var g: Graph, h: Graph := AllReferences(old'), AllReferences(new');
    AllKeys(old', new', f, v, r);
    var a, k := Incoming(NewGraph(new', f)), Incoming(KeptGraph(old', f));
    IncomingAfterCopy(old', new', f, v, r);
    forall x
      ensures x in a ==> x in f.Values
      ensures x in k ==> x in Incoming(g)
    {
      WhereReferencesLead(old', new', f, v, r, x);
    }
    ExactTotals(g, oldCount, outside);
    CountsAddUp(a, k, Incoming(g), Plus(r), outside, oldCount, count, f.Values, old'.Keys);
    ExactFromTotals(h, count, a + k + Incoming(g), outside + Plus(r));
  }

  lemma ExactTotals(g: Graph, count: map<Ref, int>, outside: multiset<Ref>)
    requires Exact(g, count, outside)
    ensures forall x :: x in Incoming(g) + outside ==> x in g.Keys
    ensures forall x :: x in g.Keys ==> x in count && count[x] == (Incoming(g) + outside)[x]
  {
    hide Incoming;
  }

  lemma ExactFromTotals(g: Graph, count: map<Ref, int>, incoming: multiset<Ref>, outside: multiset<Ref>)
    requires Incoming(g) == incoming
    requires forall x :: x in incoming + outside ==> x in g.Keys
    requires forall x :: x in g.Keys ==> x in count && count[x] == (incoming + outside)[x]
    ensures Exact(g, count, outside)
  {
    hide Incoming;
  }

  lemma AllKeys(old': Nodes, new': Nodes, f: Memo, v: Option<Ref>, r: Option<Ref>)
    requires IsCopy(old', new', f, v, r)
    ensures AllReferences(old').Keys == old'.Keys && AllReferences(new').Keys == f.Values + old'.Keys
    ensures f.Values !! old'.Keys && f.Values <= new'.Keys && f.Keys <= old'.Keys
  {
    hide Reaches, Copies, Injective, Present, Kids, Kept, References;
  }

  // ---- The counts written out ----------------------------------------------------------------------

  /** The type objects of the values in s. */
  ghost function TypeObjects(g: Nodes, s: set<Ref>): Graph
    requires s <= g.Keys
  {
    map u | u in s :: Opt(g[u].typeobj)
  }

  /** What the function and type values in s are made of. */
  ghost function PartsOf(g: Nodes, s: set<Ref>): Graph
    requires s <= g.Keys
  {
    map u | u in s :: if g[u].Shared? then g[u].parts else []
  }

  /** The components of the tuples and the targets of the pointers in s. */
  ghost function Components(g: Nodes, s: set<Ref>): Graph
    requires s <= g.Keys
  {
    map u | u in s :: if g[u].Tuple? then Present(g[u].values) else if g[u].Pointer? then Opt(g[u].target) else []
  }

  /** Every object is counted as before, and once more for each copied value of which it is the type object, for
      each time it is a part of a copied function or type, for each time it is a component of a copy, and if
      it is the result. */
  ghost predicate CountsWrittenOut(old': Nodes, oldCount: map<Ref, int>, new': Nodes, count: map<Ref, int>, f: Memo, r: Option<Ref>)
    requires f.Keys <= old'.Keys && f.Values <= new'.Keys
  {
    && count.Keys == new'.Keys
    && forall x :: x in new' ==>
         count[x] == (if x in old' && x in oldCount then oldCount[x] else 0) + Incoming(TypeObjects(old', f.Keys))[x] +
           Incoming(PartsOf(old', f.Keys))[x] + Incoming(Components(new', f.Values))[x] + Plus(r)[x]
  }

  lemma KeptIsTwofold(old': Nodes, f: Memo)
    requires f.Keys <= old'.Keys
    ensures Incoming(KeptGraph(old', f)) == Incoming(TypeObjects(old', f.Keys)) + Incoming(PartsOf(old', f.Keys))
  {
    hide Incoming, Opt;
    IncomingSum(TypeObjects(old', f.Keys), PartsOf(old', f.Keys), KeptGraph(old', f));
  }

  lemma NewAreComponents(new': Nodes, f: Memo)
    requires f.Values <= new'.Keys
    ensures NewGraph(new', f) == Components(new', f.Values)
  {
    hide Present, Opt;
    forall n | n in f.Values
      ensures NewGraph(new', f)[n] == Components(new', f.Values)[n]
    {
      if new'[n].Pointer? {
        PresentOne(new'[n].target);
      } else if !new'[n].Tuple? {
        NothingPresent();
      }
    }
  }

  lemma NothingPresent()
    ensures Present<Ref>([]) == []
  {
  }

  lemma KeptIsOld(old': Nodes, f: Memo, x: Ref)
    requires Wellformed(old') && f.Keys <= old'.Keys && x in Incoming(KeptGraph(old', f))
    ensures x in old'
  {
    hide Incoming, Kids, Kept;
    IncomingMember(KeptGraph(old', f), x);
  }

  lemma CopyCountsWrittenOut(old': Nodes, oldCount: map<Ref, int>, new': Nodes, count: map<Ref, int>, f: Memo, v: Option<Ref>, r: Option<Ref>)
    requires IsCopy(old', new', f, v, r) && CountsAfterCopy(old', oldCount, new', count, f, r) && Wellformed(old')
    ensures CountsWrittenOut(old', oldCount, new', count, f, r)
  {
    hide Incoming, Reaches, Copies, Injective, Wellformed, NewGraph, KeptGraph, TypeObjects, PartsOf, Components;
    KeptIsTwofold(old', f);
    NewAreComponents(new', f);
    var a, k := Incoming(NewGraph(new', f)), Incoming(KeptGraph(old', f));
    forall x | x in new'
      ensures count[x] == (if x in old' && x in oldCount then oldCount[x] else 0) + k[x] + a[x] + Plus(r)[x]
    {
      if x in old' {
        if x in a {
          NewAreInside(old', new', f, v, r, x);
        }
        assert x in oldCount && Plus(r)[x] == 0;
      } else {
        assert x in f.Values;
        if x in k {
          KeptIsOld(old', f, x);
        }
      }
    }
  }

  lemma NewAreInside(old': Nodes, new': Nodes, f: Memo, v: Option<Ref>, r: Option<Ref>, x: Ref)
    requires IsCopy(old', new', f, v, r) && x in Incoming(NewGraph(new', f))
    ensures x in f.Values
  {
    WhereReferencesLead(old', new', f, v, r, x);
  }

  lemma CountsAddUp(a: multiset<Ref>, k: multiset<Ref>, m: multiset<Ref>, plus: multiset<Ref>, outside: multiset<Ref>, oldCount: map<Ref, int>, count: map<Ref, int>, copies: set<Ref>, olds: set<Ref>)
    requires forall x :: (x in a ==> x in copies) && (x in k ==> x in m)
    requires forall x :: x in m + outside ==> x in olds
    requires forall x :: x in olds ==> x in oldCount && oldCount[x] == (m + outside)[x]
    requires NewCounts(a, plus, copies, count) && OldCounts(oldCount, k, olds, count) && copies !! olds
    ensures forall x :: x in a + k + m + (outside + plus) ==> x in copies + olds
    ensures forall x :: x in copies + olds ==> x in count && count[x] == (a + k + m + (outside + plus))[x]
  {
    forall x | x in copies + olds
      ensures x in count && count[x] == (a + k + m + (outside + plus))[x]
    {
      if x in copies {
        assert x !in olds;
        assert x !in m + outside;
        assert m[x] == 0 && outside[x] == 0 && k[x] == 0;
      } else {
        assert a[x] == 0 && plus[x] == 0;
      }
    }
  }
}
