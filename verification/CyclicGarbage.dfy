/** The reference-counted heap of Minimal and its cycle collector
    (minimal/src/refcount.c, minimal/src/cyclic_garbage.c). */
module CyclicGarbage {
  import opened Graphs
  import opened Pigeonhole
  import opened HeapGraph
  import opened Options

  /** A branch of a syntax tree. When the tree is destroyed, some branches are released only if they are
      there, the others without looking. */
  datatype Branch = Always(child: Option<Ref>) | IfPresent(child: Option<Ref>)

  /** What an object refers to. Values carry a type object besides the fields of their kind; sums and pointers
      are boxed values. A pointer tree is the type of a pointer: it holds the name of a type. */
  datatype Body =
    | Plain(typeobj: Option<Ref>)
    | Function(typeobj: Option<Ref>, layer: Option<Ref>, parameters: Option<Ref>, code: Option<Ref>)
    | Type(typeobj: Option<Ref>, typemap: Option<Ref>, spec: Option<Ref>)
    | Tuple(typeobj: Option<Ref>, values: seq<Option<Ref>>)
    | Boxed(typeobj: Option<Ref>, target: Option<Ref>)
    | Layer(names: Ref, parent: Option<Ref>)
    | Names(bound: seq<Ref>)
    | Tree(branches: seq<Branch>)
    | PointerTree(name: string)

  function Children(bs: seq<Branch>): seq<Ref> {
    if bs == [] then [] else Opt(bs[0].child) + Children(bs[1..])
  }

  /** The references the collector walks, in its order. */
  function References(b: Body): seq<Ref> {
    match b
    case Plain(t) => Opt(t)
    case Function(t, l, p, c) => Opt(t) + Opt(l) + (Opt(p) + Opt(c))
    case Type(t, m, s) => Opt(t) + Opt(m) + Opt(s)
    case Tuple(t, vs) => Opt(t) + Present(vs)
    case Boxed(t, r) => Opt(t) + Opt(r)
    case Layer(n, p) => [n] + Opt(p)
    case Names(vs) => vs
    case Tree(bs) => Children(bs)
    case PointerTree(_) => []
  }

  /** What a destructor hands to Minimal_delReference: an object, nothing, or a string. */
  datatype Release = Object(r: Ref) | Missing | Name(name: string)

  function Objects(rs: seq<Ref>): seq<Release> {
    if rs == [] then [] else [Object(rs[0])] + Objects(rs[1..])
  }

  function Untested(r: Option<Ref>): Release {
    if r.Some? then Object(r.value) else Missing
  }

  function BranchReleases(bs: seq<Branch>): seq<Release> {
    if bs == [] then [] else
      (if bs[0].Always? then [Untested(bs[0].child)] else Objects(Opt(bs[0].child))) + BranchReleases(bs[1..])
  }

  /** What the destructor of an object releases, in its order. */
  function ReleaseCalls(b: Body): seq<Release> {
    match b
    case Plain(t) => Objects(Opt(t))
    case Function(t, l, p, c) => Objects(Opt(t)) + ([Untested(p), Untested(c)] + [Untested(l)])
    case Type(t, m, s) => Objects(Opt(t)) + (Objects(Opt(s)) + Objects(Opt(m)))
    case Tuple(t, vs) => Objects(Opt(t)) + Objects(Present(vs))
    case Boxed(t, r) => Objects(Opt(t)) + [Untested(r)]
    case Layer(n, p) => Objects(Opt(p)) + [Object(n)]
    case Names(vs) => Objects(vs)
    case Tree(bs) => BranchReleases(bs)
    case PointerTree(name) => [Name(name)]
  }

  /** The objects among what is released. */
  function Targets(cs: seq<Release>): seq<Ref> {
    if cs == [] then [] else (if cs[0].Object? then [cs[0].r] else []) + Targets(cs[1..])
  }

  /** The references given up when the object is destroyed, in that order. */
  function Releases(b: Body): seq<Ref> {
    Targets(ReleaseCalls(b))
  }

  predicate AllObjects(cs: seq<Release>) {
    forall c :: c in cs ==> c.Object?
  }

  /** The object is no pointer tree, and nothing is missing that is released without looking. */
  predicate Destructible(b: Body) {
    match b
    case Function(_, l, p, c) => l.Some? && p.Some? && c.Some?
    case Boxed(_, r) => r.Some?
    case Tree(bs) => forall br :: br in bs && br.Always? ==> br.child.Some?
    case PointerTree(_) => false
    case _ => true
  }

  lemma {:induction false} TargetsJoin(a: seq<Release>, b: seq<Release>)
    ensures Targets(a + b) == Targets(a) + Targets(b)
  {
    if a == [] {
      assert a + b == b;
    } else {
      assert (a + b)[0] == a[0] && (a + b)[1..] == a[1..] + b;
      TargetsJoin(a[1..], b);
    }
  }

  lemma {:induction false} TargetsOfObjects(rs: seq<Ref>)
    ensures Targets(Objects(rs)) == rs && AllObjects(Objects(rs)) && |Objects(rs)| == |rs|
  {
    if rs != [] {
      var rest := Objects(rs[1..]);
      TargetsOfObjects(rs[1..]);
      assert Objects(rs) == [Object(rs[0])] + rest && Objects(rs)[1..] == rest;
      assert Targets(Objects(rs)) == [rs[0]] + rs[1..];
    }
  }

  lemma TargetsOfOne(r: Option<Ref>)
    ensures Targets([Untested(r)]) == Opt(r) && Targets(Objects(Opt(r))) == Opt(r)
  {
    TargetsOfObjects(Opt(r));
    assert [Untested(r)][1..] == [];
  }

  lemma {:induction false} TargetsOfBranches(bs: seq<Branch>)
    ensures Targets(BranchReleases(bs)) == Children(bs)
    ensures AllObjects(BranchReleases(bs)) <==> forall br :: br in bs && br.Always? ==> br.child.Some?
  {
    if bs != [] {
      var first := if bs[0].Always? then [Untested(bs[0].child)] else Objects(Opt(bs[0].child));
      var rest := BranchReleases(bs[1..]);
      TargetsJoin(first, rest);
      TargetsOfOne(bs[0].child);
      TargetsOfObjects(Opt(bs[0].child));
      TargetsOfBranches(bs[1..]);
      AllObjectsJoin(first, rest);
      assert bs == [bs[0]] + bs[1..];
      assert AllObjects([Untested(bs[0].child)]) <==> bs[0].child.Some? by {
        assert Untested(bs[0].child) in [Untested(bs[0].child)];
      }
    }
  }

  lemma AllObjectsJoin(a: seq<Release>, b: seq<Release>)
    ensures AllObjects(a + b) <==> AllObjects(a) && AllObjects(b)
  {
    assert forall c :: c in a + b <==> c in a || c in b;
  }

  lemma Swapped(a: seq<Ref>, b: seq<Ref>)
    ensures multiset(a + b) == multiset(b + a)
  {
    assert multiset(a + b) == multiset(a) + multiset(b);
    assert multiset(b + a) == multiset(b) + multiset(a);
  }

  lemma SwappedTail(a: seq<Ref>, b: seq<Ref>, c: seq<Ref>)
    ensures multiset(a + b + c) == multiset(a + (c + b))
  {
    Swapped(b, c);
    assert a + b + c == a + (b + c);
    assert multiset(a + (b + c)) == multiset(a) + multiset(b + c);
    assert multiset(a + (c + b)) == multiset(a) + multiset(c + b);
  }

  /** The objects released when an object is destroyed, spelt out. */
  lemma ReleasesAre(b: Body)
    ensures Releases(b) ==
      match b
      case Function(t, l, p, c) => Opt(t) + ((Opt(p) + Opt(c)) + Opt(l))
      case Type(t, m, s) => Opt(t) + (Opt(s) + Opt(m))
      case Layer(n, p) => Opt(p) + [n]
      case _ => References(b)
  {
    hide Targets, Untested, Objects, Opt;
    match b
    case Plain(t) => TargetsOfOne(t);
    case Function(t, l, p, c) =>
      TargetsOfOne(t);
      TargetsOfOne(l);
      TargetsOfOne(p);
      TargetsOfOne(c);
      TargetsJoin(Objects(Opt(t)), [Untested(p), Untested(c)] + [Untested(l)]);
      TargetsJoin([Untested(p), Untested(c)], [Untested(l)]);
      TargetsJoin([Untested(p)], [Untested(c)]);
      assert [Untested(p)] + [Untested(c)] == [Untested(p), Untested(c)];
    case Type(t, m, s) =>
      TargetsOfOne(t);
      TargetsOfOne(m);
      TargetsOfOne(s);
      TargetsJoin(Objects(Opt(t)), Objects(Opt(s)) + Objects(Opt(m)));
      TargetsJoin(Objects(Opt(s)), Objects(Opt(m)));
    case Tuple(t, vs) =>
      TargetsOfOne(t);
      TargetsOfObjects(Present(vs));
      TargetsJoin(Objects(Opt(t)), Objects(Present(vs)));
    case Boxed(t, r) =>
      TargetsOfOne(t);
      TargetsOfOne(r);
      TargetsJoin(Objects(Opt(t)), [Untested(r)]);
    case Layer(n, p) =>
      TargetsOfOne(p);
      TargetsOfName(n);
      TargetsJoin(Objects(Opt(p)), [Object(n)]);
    case Names(vs) => TargetsOfObjects(vs);
    case Tree(bs) => TargetsOfBranches(bs);
    case PointerTree(name) => NoTargets(name);
  }

  lemma TargetsOfName(n: Ref)
    ensures Targets([Object(n)]) == [n]
  {
    assert [Object(n)][1..] == [];
  }

  lemma NoTargets(name: string)
    ensures Targets([Name(name)]) == []
  {
    assert [Name(name)][1..] == [];
  }

  /** The objects that a destructor releases are those that the collector walks, in another order. */
  lemma ReleasesWhatItWalks(b: Body)
    ensures multiset(Releases(b)) == multiset(References(b))
  {
    hide Releases, Opt;
    ReleasesAre(b);
    match b
    case Function(t, l, p, c) => SwappedTail(Opt(t), Opt(l), Opt(p) + Opt(c));
    case Type(t, m, s) => SwappedTail(Opt(t), Opt(m), Opt(s));
    case Layer(n, p) => Swapped([n], Opt(p));
    case _ =>
  }

  /** A destructor releases nothing but objects exactly if the object is destructible. */
  lemma ReleasesOnlyObjects(b: Body)
    ensures AllObjects(ReleaseCalls(b)) <==> Destructible(b)
  {
    hide Objects, Opt, AllObjects;
    match b
    case Plain(t) => TargetsOfObjects(Opt(t));
    case Function(t, l, p, c) =>
      TargetsOfObjects(Opt(t));
      AllObjectsJoin(Objects(Opt(t)), [Untested(p), Untested(c)] + [Untested(l)]);
      ThreeUntested(p, c, l);
    case Type(t, m, s) =>
      TargetsOfObjects(Opt(t));
      TargetsOfObjects(Opt(m));
      TargetsOfObjects(Opt(s));
      AllObjectsJoin(Objects(Opt(t)), Objects(Opt(s)) + Objects(Opt(m)));
      AllObjectsJoin(Objects(Opt(s)), Objects(Opt(m)));
    case Tuple(t, vs) =>
      TargetsOfObjects(Opt(t));
      TargetsOfObjects(Present(vs));
      AllObjectsJoin(Objects(Opt(t)), Objects(Present(vs)));
    case Boxed(t, r) =>
      TargetsOfObjects(Opt(t));
      AllObjectsJoin(Objects(Opt(t)), [Untested(r)]);
      OneRelease(Untested(r));
    case Layer(n, p) =>
      TargetsOfObjects(Opt(p));
      AllObjectsJoin(Objects(Opt(p)), [Object(n)]);
      OneRelease(Object(n));
    case Names(vs) => TargetsOfObjects(vs);
    case Tree(bs) => TargetsOfBranches(bs);
    case PointerTree(name) => OneRelease(Name(name));
  }

  lemma OneRelease(c: Release)
    ensures AllObjects([c]) <==> c.Object?
  {
    assert c in [c];
  }

  lemma ThreeUntested(p: Option<Ref>, c: Option<Ref>, l: Option<Ref>)
    ensures AllObjects([Untested(p), Untested(c)] + [Untested(l)]) <==> p.Some? && c.Some? && l.Some?
  {
    var cs := [Untested(p), Untested(c)] + [Untested(l)];
    assert cs[0] in cs && cs[1] in cs && cs[2] in cs;
  }

  lemma {:induction false} ObjectsOfTargets(cs: seq<Release>)
    requires AllObjects(cs)
    ensures Objects(Targets(cs)) == cs
  {
    if cs != [] {
      assert cs[0] in cs && forall c :: c in cs[1..] ==> c in cs;
      ObjectsOfTargets(cs[1..]);
      assert ([cs[0].r] + Targets(cs[1..]))[1..] == Targets(cs[1..]);
    }
  }

  lemma {:induction false} ObjectsCount(rs: seq<Ref>, r: Ref)
    ensures multiset(Objects(rs))[Object(r)] == multiset(rs)[r]
  {
    if rs != [] {
      ObjectsCount(rs[1..], r);
      assert rs == [rs[0]] + rs[1..];
    }
  }

  /** A destructor releases exactly what the collector walks if and only if the object is destructible: no
      pointer tree, and nothing missing that is released without looking. */
  lemma ReleasesExactlyWhatItWalks(b: Body)
    ensures multiset(ReleaseCalls(b)) == multiset(Objects(References(b))) <==> Destructible(b)
  {
    var calls, walked := ReleaseCalls(b), Objects(References(b));
    ReleasesOnlyObjects(b);
    TargetsOfObjects(References(b));
    hide ReleaseCalls, References, Destructible;
    if Destructible(b) {
      ReleasesWhatItWalks(b);
      SameObjects(calls, References(b));
    } else {
      var c :| c in calls && !c.Object?;
      assert c in multiset(calls) && c !in multiset(walked);
    }
  }

  lemma SameObjects(calls: seq<Release>, rs: seq<Ref>)
    requires AllObjects(calls) && multiset(Targets(calls)) == multiset(rs)
    ensures multiset(calls) == multiset(Objects(rs))
  {
    hide Targets, Objects;
    ObjectsOfTargets(calls);
    TargetsOfObjects(rs);
    forall c: Release
      ensures multiset(calls)[c] == multiset(Objects(rs))[c]
    {
      if c.Object? {
        ObjectsCount(Targets(calls), c.r);
        ObjectsCount(rs, c.r);
      } else {
        assert c !in calls && c !in Objects(rs);
      }
    }
  }

  function Times(f: Option<Ref>, r: Ref): nat {
    if f == Some(r) then 1 else 0
  }

  function Gone(f: Option<Ref>): nat {
    if f.None? then 1 else 0
  }

  /** What the branches of a tree hold, whether they are tested or not. */
  function BranchChildren(bs: seq<Branch>): seq<Option<Ref>> {
    seq(|bs|, i requires 0 <= i < |bs| => bs[i].child)
  }

  /** An object is walked once for every field, element, binding or branch in which it stands. */
  lemma WalksEveryField(b: Body, r: Ref)
    ensures multiset(References(b))[r] ==
      match b
      case Plain(t) => Times(t, r)
      case Function(t, l, p, c) => Times(t, r) + Times(l, r) + Times(p, r) + Times(c, r)
      case Type(t, m, s) => Times(t, r) + Times(m, r) + Times(s, r)
      case Tuple(t, vs) => Times(t, r) + multiset(vs)[Some(r)]
      case Boxed(t, x) => Times(t, r) + Times(x, r)
      case Layer(n, p) => Times(Some(n), r) + Times(p, r)
      case Names(vs) => multiset(vs)[r]
      case Tree(bs) => multiset(BranchChildren(bs))[Some(r)]
      case PointerTree(_) => 0
  {
    hide *;
    match b
    case Plain(t) => PlainWalks(t, r);
    case Function(t, l, p, c) => FunctionWalks(t, l, p, c, r);
    case Type(t, m, s) => TypeWalks(t, m, s, r);
    case Tuple(t, vs) => TupleWalks(t, vs, r);
    case Boxed(t, x) => BoxedWalks(t, x, r);
    case Layer(n, p) => LayerWalks(n, p, r);
    case Names(vs) => NamesWalk(vs, r);
    case Tree(bs) => TreeWalks(bs, r);
    case PointerTree(name) => NamesWalkNothing(name, r);
  }

  lemma PlainWalks(t: Option<Ref>, r: Ref)
    ensures multiset(References(Plain(t)))[r] == Times(t, r)
  {
  }

  lemma FunctionWalks(t: Option<Ref>, l: Option<Ref>, p: Option<Ref>, c: Option<Ref>, r: Ref)
    ensures multiset(References(Function(t, l, p, c)))[r] == Times(t, r) + Times(l, r) + Times(p, r) + Times(c, r)
  {
    hide Times, Opt;
    assert References(Function(t, l, p, c)) == Opt<Ref>(t) + (Opt<Ref>(l) + (Opt<Ref>(p) + Opt<Ref>(c)));
    hide References;
    OptCount(c, r);
    WithOne(p, Opt<Ref>(c), r);
    WithOne(l, Opt<Ref>(p) + Opt<Ref>(c), r);
    WithOne(t, Opt<Ref>(l) + (Opt<Ref>(p) + Opt<Ref>(c)), r);
  }

  lemma TypeWalks(t: Option<Ref>, m: Option<Ref>, s: Option<Ref>, r: Ref)
    ensures multiset(References(Type(t, m, s)))[r] == Times(t, r) + Times(m, r) + Times(s, r)
  {
    hide Times, Opt;
    assert References(Type(t, m, s)) == Opt<Ref>(t) + (Opt<Ref>(m) + Opt<Ref>(s));
    hide References;
    OptCount(s, r);
    WithOne(m, Opt<Ref>(s), r);
    WithOne(t, Opt<Ref>(m) + Opt<Ref>(s), r);
  }

  lemma TupleWalks(t: Option<Ref>, vs: seq<Option<Ref>>, r: Ref)
    ensures multiset(References(Tuple(t, vs)))[r] == Times(t, r) + multiset(vs)[Some(r)]
  {
    hide Times, Opt, Present;
    PresentCount(vs, r);
    WithOne(t, Present<Ref>(vs), r);
  }

  lemma BoxedWalks(t: Option<Ref>, x: Option<Ref>, r: Ref)
    ensures multiset(References(Boxed(t, x)))[r] == Times(t, r) + Times(x, r)
  {
    hide Times, Opt;
    OptCount(x, r);
    WithOne(t, Opt<Ref>(x), r);
  }

  lemma LayerWalks(n: Ref, p: Option<Ref>, r: Ref)
    ensures multiset(References(Layer(n, p)))[r] == Times(Some(n), r) + Times(p, r)
  {
    assert Opt<Ref>(Some(n)) == [n];
    hide Times, Opt;
    OptCount(p, r);
    WithOne(Some(n), Opt<Ref>(p), r);
  }

  lemma OptCount(f: Option<Ref>, r: Ref)
    ensures multiset(Opt<Ref>(f))[r] == Times(f, r)
  {
  }

  lemma WithOne(f: Option<Ref>, rest: seq<Ref>, r: Ref)
    ensures multiset(Opt<Ref>(f) + rest)[r] == Times(f, r) + multiset(rest)[r]
  {
  }

  lemma NamesWalk(vs: seq<Ref>, r: Ref)
    ensures multiset(References(Names(vs)))[r] == multiset(vs)[r]
  {
  }

  lemma TreeWalks(bs: seq<Branch>, r: Ref)
    ensures multiset(References(Tree(bs)))[r] == multiset(BranchChildren(bs))[Some(r)]
  {
    hide Children, BranchChildren;
    BranchesCount(bs, r);
  }

  lemma NamesWalkNothing(name: string, r: Ref)
    ensures multiset(References(PointerTree(name)))[r] == 0
  {
  }

  lemma {:induction false} PresentCount(vs: seq<Option<Ref>>, r: Ref)
    ensures multiset(Present<Ref>(vs))[r] == multiset(vs)[Some(r)]
  {
    if vs != [] {
      PresentCount(vs[1..], r);
      WithOne(vs[0], Present<Ref>(vs[1..]), r);
      CountFirst(vs, Some(r));
    }
  }

  lemma CountFirst<T>(s: seq<T>, x: T)
    requires s != []
    ensures multiset(s)[x] == (if s[0] == x then 1 else 0) + multiset(s[1..])[x]
  {
    assert s == [s[0]] + s[1..];
  }

  lemma {:induction false} BranchesCount(bs: seq<Branch>, r: Ref)
    ensures multiset(Children(bs))[r] == multiset(BranchChildren(bs))[Some(r)]
  {
    if bs != [] {
      BranchesCount(bs[1..], r);
      WithOne(bs[0].child, Children(bs[1..]), r);
      assert BranchChildren(bs)[0] == bs[0].child && BranchChildren(bs)[1..] == BranchChildren(bs[1..]);
      CountFirst(BranchChildren(bs), Some(r));
    }
  }

  /** How often a name is among what is released, or something missing. */
  function Others(cs: seq<Release>, c: Release): nat {
    if c.Object? then 0 else multiset(cs)[c]
  }

  /** A destructor releases something missing once for every missing field that is not tested, and a name only
      for a pointer type. */
  lemma ReleasesTheMissing(b: Body, name: string)
    ensures Others(ReleaseCalls(b), Missing) ==
      match b
      case Function(_, l, p, c) => Gone(l) + Gone(p) + Gone(c)
      case Boxed(_, x) => Gone(x)
      case Tree(bs) => multiset(bs)[Always(None)]
      case _ => 0
    ensures Others(ReleaseCalls(b), Name(name)) == if b == PointerTree(name) then 1 else 0
  {
    hide Objects, BranchReleases, Opt, Others, Present, Untested, Gone;
    match b
    case Plain(t) => ObjectsOnly(Opt(t), name);
    case Function(t, l, p, c) =>
      ObjectsOnly(Opt(t), name);
      OneUntested(l, name);
      OneUntested(p, name);
      OneUntested(c, name);
      OthersJoin([Untested(p)], [Untested(c)], name);
      OthersJoin([Untested(p)] + [Untested(c)], [Untested(l)], name);
      OthersJoin(Objects(Opt(t)), [Untested(p)] + [Untested(c)] + [Untested(l)], name);
      assert [Untested(p)] + [Untested(c)] == [Untested(p), Untested(c)];
    case Type(t, m, s) =>
      ObjectsOnly(Opt(t), name);
      ObjectsOnly(Opt(m), name);
      ObjectsOnly(Opt(s), name);
      OthersJoin(Objects(Opt(s)), Objects(Opt(m)), name);
      OthersJoin(Objects(Opt(t)), Objects(Opt(s)) + Objects(Opt(m)), name);
    case Tuple(t, vs) =>
      ObjectsOnly(Opt(t), name);
      ObjectsOnly(Present(vs), name);
      OthersJoin(Objects(Opt(t)), Objects(Present(vs)), name);
    case Boxed(t, x) =>
      ObjectsOnly(Opt(t), name);
      OneUntested(x, name);
      OthersJoin(Objects(Opt(t)), [Untested(x)], name);
    case Layer(n, p) =>
      ObjectsOnly(Opt(p), name);
      OneOther(Object(n), name);
      OthersJoin(Objects(Opt(p)), [Object(n)], name);
    case Names(vs) => ObjectsOnly(vs, name);
    case Tree(bs) => BranchesMissing(bs, name);
    case PointerTree(x) => OneOther(Name(x), name);
  }

  lemma OthersJoin(a: seq<Release>, b: seq<Release>, name: string)
    ensures Others(a + b, Missing) == Others(a, Missing) + Others(b, Missing)
    ensures Others(a + b, Name(name)) == Others(a, Name(name)) + Others(b, Name(name))
  {
  }

  lemma OneOther(c: Release, name: string)
    ensures Others([c], Missing) == if c.Missing? then 1 else 0
    ensures Others([c], Name(name)) == if c == Name(name) then 1 else 0
  {
  }

  lemma OneUntested(f: Option<Ref>, name: string)
    ensures Others([Untested(f)], Missing) == Gone(f) && Others([Untested(f)], Name(name)) == 0
  {
    OneOther(Untested(f), name);
  }

  lemma ObjectsOnly(rs: seq<Ref>, name: string)
    ensures Others(Objects(rs), Missing) == 0 && Others(Objects(rs), Name(name)) == 0
  {
    hide Objects;
    TargetsOfObjects(rs);
    assert Missing !in Objects(rs) && Name(name) !in Objects(rs);
  }

  lemma {:induction false} BranchesMissing(bs: seq<Branch>, name: string)
    ensures Others(BranchReleases(bs), Missing) == multiset(bs)[Always(None)]
    ensures Others(BranchReleases(bs), Name(name)) == 0
  {
    hide Objects, Others, Untested, Opt;
    if bs == [] {
      NoOthers(name);
    } else {
      var first := if bs[0].Always? then [Untested(bs[0].child)] else Objects(Opt(bs[0].child));
      BranchesMissing(bs[1..], name);
      ObjectsOnly(Opt(bs[0].child), name);
      OneUntested(bs[0].child, name);
      OthersJoin(first, BranchReleases(bs[1..]), name);
      CountFirst(bs, Always(None));
    }
  }

  lemma NoOthers(name: string)
    ensures Others([], Missing) == 0 && Others([], Name(name)) == 0
  {
  }

  /** The type of a pointer refers to no object, and its destructor releases the name it holds. */
  lemma PointerTreeReleasesItsName(name: string)
    ensures References(PointerTree(name)) == [] && ReleaseCalls(PointerTree(name)) == [Name(name)]
    ensures multiset(ReleaseCalls(PointerTree(name))) != multiset(Objects(References(PointerTree(name))))
  {
    ReleasesExactlyWhatItWalks(PointerTree(name));
  }

  /** The elements of s that are not in d. */
  ghost function Keep(s: seq<Ref>, d: set<Ref>): seq<Ref> {
    if s == [] then [] else (if s[0] in d then [] else [s[0]]) + Keep(s[1..], d)
  }

  lemma {:induction false} KeepCounts(s: seq<Ref>, d: set<Ref>)
    ensures forall x :: multiset(Keep(s, d))[x] == if x in d then 0 else multiset(s)[x]
  {
    if s != [] {
      KeepCounts(s[1..], d);
      assert s == [s[0]] + s[1..];
    }
  }

  /** What the chosen objects of a list still have to release, members of d aside. */
  ghost function Owed(obj: map<Ref, Body>, list: seq<Ref>, chosen: seq<bool>, d: set<Ref>): multiset<Ref>
    requires |list| == |chosen| && forall x :: x in list ==> x in obj
  {
    if list == [] then multiset{} else
      (if chosen[0] then multiset(Keep(Releases(obj[list[0]]), d)) else multiset{})
      + Owed(obj, list[1..], chosen[1..], d)
  }

  ghost function LiveGraph(obj: map<Ref, Body>, count: map<Ref, int>): Graph {
    map x | x in obj && x in count && count[x] > 0 :: References(obj[x])
  }

  /** Objects being destroyed as part of a clique. */
  ghost function Condemned(obj: map<Ref, Body>, count: map<Ref, int>): set<Ref> {
    set x | x in obj && x in count && count[x] < 0
  }

  /** Nothing is created or rewritten, objects under destruction are left alone, and an object
      whose count was positive either keeps a positive count or is gone. */
  ghost predicate Frame(obj: map<Ref, Body>, count: map<Ref, int>, obj': map<Ref, Body>, count': map<Ref, int>) {
    && obj.Keys == count.Keys && obj'.Keys == count'.Keys && obj'.Keys <= obj.Keys
    && (forall x :: x in obj' ==> obj'[x] == obj[x])
    && (forall x :: x in obj && count[x] <= 0 ==> x in obj' && count'[x] == count[x])
    && (forall x :: x in obj' && count[x] > 0 ==> count'[x] > 0)
  }

  /** Every object held in the old graph survives. */
  ghost predicate Safe(g: Graph, g': Graph, outside: multiset<Ref>) {
    forall x :: x in g && Held(g, outside, x) ==> x in g'
  }

  /** The list holds distinct objects reachable from p, p first. */
  ghost predicate Listed(g: Graph, p: Ref, ptr: seq<Ref>) {
    && 0 < |ptr| && ptr[0] == p && AllDistinct(ptr)
    && forall k :: 0 <= k < |ptr| ==> ptr[k] in g && Reaches(g, p, ptr[k])
  }

  /** The indices in tos are those of the given references. */
  ghost predicate Points(ptr: seq<Ref>, tos: seq<nat>, refs: seq<Ref>) {
    |tos| == |refs| && forall l :: 0 <= l < |tos| ==> tos[l] < |ptr| && ptr[tos[l]] == refs[l]
  }

  /** The references of the k-th object that were visited when the walk had finished i objects and
      j references of the next one. */
  ghost function Visited(g: Graph, ptr: seq<Ref>, i: nat, j: nat, k: nat): seq<Ref>
    requires k < |ptr| && ptr[k] in g && (k == i ==> j <= |g[ptr[k]]|)
  {
    if k < i then g[ptr[k]] else if k == i then g[ptr[k]][..j] else []
  }

  ghost predicate Linked(g: Graph, ptr: seq<Ref>, ptrtos: seq<seq<nat>>, i: nat, j: nat)
    requires forall k :: 0 <= k < |ptr| ==> ptr[k] in g
    requires i < |ptr| ==> j <= |g[ptr[i]]|
  {
    |ptrtos| == |ptr| && forall k :: 0 <= k < |ptr| ==> Points(ptr, ptrtos[k], Visited(g, ptr, i, j, k))
  }

  /** hits counts the references in m to each listed object. */
  ghost predicate Counted(ptr: seq<Ref>, hits: seq<int>, m: multiset<Ref>) {
    |hits| == |ptr| && forall k :: 0 <= k < |ptr| ==> hits[k] == m[ptr[k]]
  }

  ghost function Seen(g: Graph, ptr: seq<Ref>, i: nat, j: nat): multiset<Ref>
    requires i <= |ptr| && (forall x :: x in ptr ==> x in g)
    requires i < |ptr| ==> j <= |g[ptr[i]]|
  {
    EdgesOf(g, ptr[..i]) + if i < |ptr| then multiset(g[ptr[i]][..j]) else multiset{}
  }

  /** The walk has visited the first i objects of the list and the first j references of the next. */
  ghost predicate Walked(g: Graph, p: Ref, ptr: seq<Ref>, hits: seq<int>, ptrtos: seq<seq<nat>>, i: nat, j: nat) {
    && Listed(g, p, ptr)
    && i <= |ptr| && (i < |ptr| ==> j <= |g[ptr[i]]|)
    && Linked(g, ptr, ptrtos, i, j)
    && Counted(ptr, hits, Seen(g, ptr, i, j))
  }

  /** The collector's list of the objects reachable from its root (struct CyclicGarbageList). */
  class CyclicGarbageList {
    var ptr: seq<Ref>
    var hits: seq<int>
    var ptrtos: seq<seq<nat>>
    var inClique: seq<bool>

    constructor (p: Ref)
      ensures ptr == [p] && hits == [0] && ptrtos == [[]] && inClique == [true]
    {
      ptr, hits, ptrtos, inClique := [p], [0], [[]], [true];
    }

    /** Records one reference from the object at index current to x. */
    method Add(x: Ref, current: nat) returns (k: nat)
      requires |hits| == |ptrtos| == |inClique| == |ptr| && current < |ptr|
      modifies this
      ensures |hits| == |ptrtos| == |inClique| == |ptr| && k < |ptr| && ptr[k] == x
      ensures x in old(ptr) ==> ptr == old(ptr) && inClique == old(inClique) && hits == old(hits)[k := old(hits)[k] + 1]
      ensures x !in old(ptr) ==> ptr == old(ptr) + [x] && inClique == old(inClique) + [false] && hits == old(hits) + [1]
      ensures x in old(ptr) ==> ptrtos == old(ptrtos)[current := old(ptrtos)[current] + [k]]
      ensures x !in old(ptr) ==> ptrtos == (old(ptrtos) + [[]])[current := old(ptrtos)[current] + [k]]
    {
      k := 0;
      while k < |ptr| && ptr[k] != x
        invariant k <= |ptr|
        invariant x !in ptr[..k]
      {
        k := k + 1;
      }
      if k < |ptr| {
        hits := hits[k := hits[k] + 1];
      } else {
        ptr, hits, ptrtos, inClique := ptr + [x], hits + [1], ptrtos + [[]], inClique + [false];
      }
      ptrtos := ptrtos[current := ptrtos[current] + [k]];
    }

    /** Adds the j-th reference of the object at index i. */
    method AddReference(x: Ref, i: nat, ghost j: nat, ghost g: Graph, ghost p: Ref)
      requires Closed(g, g.Keys)
      requires Walked(g, p, ptr, hits, ptrtos, i, j) && OnlyRootChosen()
      requires i < |ptr| && j < |g[ptr[i]]| && g[ptr[i]][j] == x
      modifies this
      ensures Walked(g, p, ptr, hits, ptrtos, i, j + 1) && OnlyRootChosen()
      ensures i < |ptr| && ptr[i] == old(ptr[i])
    {
      ghost var ptr0, hits0, ptrtos0 := ptr, hits, ptrtos;
      var k := Add(x, i);
      AddedOne(g, p, ptr0, hits0, ptrtos0, i, j, k, ptr, hits, ptrtos);
    }

    /** Adds all references of the object at index i. */
    method GetReferences(i: nat, refs: seq<Ref>, ghost g: Graph, ghost p: Ref)
      requires Closed(g, g.Keys)
      requires Walked(g, p, ptr, hits, ptrtos, i, 0) && OnlyRootChosen()
      requires i < |ptr| && g[ptr[i]] == refs
      modifies this
      ensures Walked(g, p, ptr, hits, ptrtos, i + 1, 0) && OnlyRootChosen()
    {
      var j := 0;
      while j < |refs|
        invariant i < |ptr| && ptr[i] == old(ptr[i]) && j <= |refs|
        invariant Walked(g, p, ptr, hits, ptrtos, i, j) && OnlyRootChosen()
      {
        AddReference(refs[j], i, j, g, p);
        j := j + 1;
      }
      NextObject(g, p, ptr, hits, ptrtos, i);
    }

    ghost predicate OnlyRootChosen()
      reads this
    {
      |inClique| == |ptr| && forall k :: 0 <= k < |ptr| ==> (inClique[k] <==> k == 0)
    }

    /** Lists everything reachable from p, and counts the references found on the way. */
    method Walk(p: Ref, obj: map<Ref, Body>, ghost g: Graph)
      requires Closed(g, g.Keys) && forall x :: x in g ==> x in obj && g[x] == References(obj[x])
      requires p in g && ptr == [p] && hits == [0] && ptrtos == [[]] && inClique == [true]
      modifies this
      ensures Walked(g, p, ptr, hits, ptrtos, |ptr|, 0) && OnlyRootChosen()
    {
      var i := 0;
      ReachesSelf(g, p);
      while i < |ptr|
        invariant Walked(g, p, ptr, hits, ptrtos, i, 0) && OnlyRootChosen()
        decreases |g| - i
      {
        ListedFits(g, ptr);
        GetReferences(i, References(obj[ptr[i]]), g, p);
        i := i + 1;
      }
    }

    ghost function Chosen(): set<Ref>
      reads this
    {
      ChosenOf(ptr, inClique)
    }

    /** Does the object at index j refer to a member of the clique? */
    method PointsIntoClique(j: nat) returns (found: bool)
      requires |ptrtos| == |inClique| == |ptr| && j < |ptr|
      requires forall l :: 0 <= l < |ptrtos[j]| ==> ptrtos[j][l] < |ptr|
      ensures found <==> exists l :: 0 <= l < |ptrtos[j]| && inClique[ptrtos[j][l]]
    {
      found := false;
      for l := 0 to |ptrtos[j]|
        invariant !found
        invariant forall k :: 0 <= k < l ==> !inClique[ptrtos[j][k]]
      {
        if inClique[ptrtos[j][l]] {
          found := true;
          break;
        }
      }
    }

    /** One pass over the list: adds the first object that refers to the clique, if there is one. */
    method AddOneToClique(count: map<Ref, int>, ghost g: Graph, ghost p: Ref, ghost outside: multiset<Ref>)
      returns (change: bool, entered: bool)
      requires Walked(g, p, ptr, hits, ptrtos, |ptr|, 0) && Exact(g, count, outside)
      requires Growing(g, p, ptr, hits, inClique, count)
      modifies this`inClique
      ensures |inClique| == |ptr|
      ensures !entered ==> Growing(g, p, ptr, hits, inClique, count)
      ensures !change && !entered ==> Saturated(ptr, ptrtos, inClique)
      ensures !change ==> inClique == old(inClique)
      ensures change ==> Unchosen(inClique) < Unchosen(old(inClique))
      ensures entered ==> change && !Enclosed(g, outside, Component(g, p))
    {
      hide Walked, Exact, Growing, Enclosed, Component, Unchosen;
      change, entered := false, false;
      LinksAreListed(g, p, ptr, hits, ptrtos, inClique, count);
      var j := 0;
      while j < |ptr|
        invariant j <= |ptr| && inClique == old(inClique)
        invariant forall k :: 0 <= k < j && !inClique[k] ==> PointsOutside(ptrtos[k], inClique)
      {
        if !inClique[j] {
          var found := PointsIntoClique(j);
          if found {
            MemberJoins(g, p, ptr, hits, ptrtos, inClique, count, outside, j);
            inClique := inClique[j := true];
            change := true;
            if count[ptr[j]] > hits[j] {
              entered := true;
              return;
            } else if count[ptr[j]] < hits[j] {
              assert false;
            }
            return;
          }
        }
        j := j + 1;
      }
    }

    /** Grows the clique from the root; gives up when a member is referred to from outside. */
    method GrowClique(count: map<Ref, int>, ghost g: Graph, ghost p: Ref, ghost outside: multiset<Ref>)
      returns (enclosed: bool)
      requires Walked(g, p, ptr, hits, ptrtos, |ptr|, 0) && OnlyRootChosen() && Exact(g, count, outside)
      modifies this`inClique
      ensures enclosed <==> Enclosed(g, outside, Component(g, p))
      ensures |inClique| == |ptr| && (enclosed ==> Chosen() == Component(g, p))
    {
      RootStartsClique(g, p, ptr, hits, ptrtos, inClique, count, outside);
      if count[ptr[0]] > hits[0] {
        return false;
      } else if count[ptr[0]] < hits[0] {
        assert false;
      }
      var change := true;
      while change
        invariant Growing(g, p, ptr, hits, inClique, count)
        invariant !change ==> Saturated(ptr, ptrtos, inClique)
        decreases Unchosen(inClique), change
      {
        var entered;
        change, entered := AddOneToClique(count, g, p, outside);
        if entered {
          return false;
        }
      }
      SaturatedIsEnclosed(g, p, ptr, hits, ptrtos, inClique, count, outside);
      enclosed := true;
    }
  }

  ghost function ChosenOf(ptr: seq<Ref>, inClique: seq<bool>): set<Ref> {
    set k | 0 <= k < |ptr| && k < |inClique| && inClique[k] :: ptr[k]
  }

  ghost function Unchosen(inClique: seq<bool>): set<nat> {
    set k: nat | k < |inClique| && !inClique[k]
  }

  /** None of the indices is chosen. */
  ghost predicate PointsOutside(tos: seq<nat>, inClique: seq<bool>) {
    forall l :: 0 <= l < |tos| ==> tos[l] < |inClique| && !inClique[tos[l]]
  }

  ghost predicate Saturated(ptr: seq<Ref>, ptrtos: seq<seq<nat>>, inClique: seq<bool>) {
    |ptrtos| == |inClique| == |ptr| && forall k :: 0 <= k < |ptr| && !inClique[k] ==> PointsOutside(ptrtos[k], inClique)
  }

  /** The clique contains the root, every member reaches it, and no member is referred to from
      outside the list. */
  ghost predicate Growing(g: Graph, p: Ref, ptr: seq<Ref>, hits: seq<int>, inClique: seq<bool>, count: map<Ref, int>) {
    && |inClique| == |hits| == |ptr| && 0 < |ptr| && inClique[0]
    && forall k :: 0 <= k < |ptr| && inClique[k] ==>
         Reaches(g, ptr[k], p) && ptr[k] in count && count[ptr[k]] == hits[k]
  }

  lemma LinksAreListed(g: Graph, p: Ref, ptr: seq<Ref>, hits: seq<int>, ptrtos: seq<seq<nat>>, inClique: seq<bool>,
                       count: map<Ref, int>)
    requires Walked(g, p, ptr, hits, ptrtos, |ptr|, 0) && Growing(g, p, ptr, hits, inClique, count)
    ensures |hits| == |ptrtos| == |inClique| == |ptr|
    ensures forall k, l :: 0 <= k < |ptr| && 0 <= l < |ptrtos[k]| ==> ptrtos[k][l] < |ptr|
  {
    forall k | 0 <= k < |ptr|
      ensures forall l :: 0 <= l < |ptrtos[k]| ==> ptrtos[k][l] < |ptr|
    {
      assert Points(ptr, ptrtos[k], Visited(g, ptr, |ptr|, 0, k));
    }
  }

  /** An object that refers to the clique joins it, or shows that it is entered from outside. */
  lemma MemberJoins(g: Graph, p: Ref, ptr: seq<Ref>, hits: seq<int>, ptrtos: seq<seq<nat>>, inClique: seq<bool>,
                    count: map<Ref, int>, outside: multiset<Ref>, j: nat)
    requires Walked(g, p, ptr, hits, ptrtos, |ptr|, 0) && Exact(g, count, outside) && Growing(g, p, ptr, hits, inClique, count)
    requires j < |ptr| && j < |hits| && j < |inClique| && !inClique[j] && |ptrtos| == |ptr|
    requires exists l :: 0 <= l < |ptrtos[j]| && ptrtos[j][l] < |inClique| && inClique[ptrtos[j][l]]
    ensures ptr[j] in count && hits[j] <= count[ptr[j]]
    ensures Unchosen(inClique[j := true]) < Unchosen(inClique)
    ensures if count[ptr[j]] == hits[j] then Growing(g, p, ptr, hits, inClique[j := true], count) else !Enclosed(g, outside, Component(g, p))
  {
    hide Walked, Exact, Enclosed;
    ListIsClosed(g, p, ptr, hits, ptrtos);
    MemberReachesRoot(g, p, ptr, hits, ptrtos, inClique, count, j);
    HitsOfExact(g, p, ptr, hits, ptrtos, count, outside, j);
    assert j in Unchosen(inClique) && j !in Unchosen(inClique[j := true]);
    if count[ptr[j]] > hits[j] {
      EnteredBreaksEnclosed(g, ptr, outside, Component(g, p), ptr[j]);
    }
  }

  lemma MemberReachesRoot(g: Graph, p: Ref, ptr: seq<Ref>, hits: seq<int>, ptrtos: seq<seq<nat>>, inClique: seq<bool>,
                          count: map<Ref, int>, j: nat)
    requires Walked(g, p, ptr, hits, ptrtos, |ptr|, 0) && Growing(g, p, ptr, hits, inClique, count)
    requires j < |ptr| && exists l :: 0 <= l < |ptrtos[j]| && ptrtos[j][l] < |inClique| && inClique[ptrtos[j][l]]
    ensures ptr[j] in Component(g, p)
  {
    var l :| 0 <= l < |ptrtos[j]| && ptrtos[j][l] < |inClique| && inClique[ptrtos[j][l]];
    assert Points(ptr, ptrtos[j], Visited(g, ptr, |ptr|, 0, j));
    var next := ptr[ptrtos[j][l]];
    assert Edge(g, ptr[j], next);
    ReachesFirst(g, ptr[j], next, p);
  }

  /** With exact counts, a count exceeds the hits by the references from outside the list. */
  lemma HitsOfExact(g: Graph, p: Ref, ptr: seq<Ref>, hits: seq<int>, ptrtos: seq<seq<nat>>, count: map<Ref, int>,
                    outside: multiset<Ref>, k: nat)
    requires Walked(g, p, ptr, hits, ptrtos, |ptr|, 0) && Exact(g, count, outside) && k < |ptr|
    ensures ptr[k] in count && count[ptr[k]] == hits[k] + (Incoming(g - Elements(ptr)) + outside)[ptr[k]]
  {
    var s := Elements(ptr);
    IncomingSplit(g, s);
    EdgesOfList(g, ptr);
    assert ptr[..|ptr|] == ptr;
    assert Incoming(Only(g, s)) == Seen(g, ptr, |ptr|, 0);
  }

  lemma ListIsClosed(g: Graph, p: Ref, ptr: seq<Ref>, hits: seq<int>, ptrtos: seq<seq<nat>>)
    requires Walked(g, p, ptr, hits, ptrtos, |ptr|, 0)
    ensures Closed(g, Elements(ptr)) && Component(g, p) <= Elements(ptr)
  {
    var s := Elements(ptr);
    forall a, b | a in s && Edge(g, a, b)
      ensures b in s
    {
      var k :| 0 <= k < |ptr| && ptr[k] == a;
      var l :| 0 <= l < |g[a]| && g[a][l] == b;
      assert Points(ptr, ptrtos[k], Visited(g, ptr, |ptr|, 0, k));
      assert ptr[ptrtos[k][l]] == b;
    }
    forall x | x in Component(g, p)
      ensures x in s
    {
      ClosedContains(g, s, p, x);
    }
  }

  lemma RootStartsClique(g: Graph, p: Ref, ptr: seq<Ref>, hits: seq<int>, ptrtos: seq<seq<nat>>, inClique: seq<bool>,
                         count: map<Ref, int>, outside: multiset<Ref>)
    requires Walked(g, p, ptr, hits, ptrtos, |ptr|, 0) && Exact(g, count, outside)
    requires |inClique| == |ptr| && forall k :: 0 <= k < |ptr| ==> (inClique[k] <==> k == 0)
    ensures ptr[0] in count && count[ptr[0]] >= hits[0]
    ensures count[ptr[0]] > hits[0] ==> !Enclosed(g, outside, Component(g, p))
    ensures count[ptr[0]] == hits[0] ==> Growing(g, p, ptr, hits, inClique, count)
  {
    HitsOfExact(g, p, ptr, hits, ptrtos, count, outside, 0);
    ReachesSelf(g, p);
    ListIsClosed(g, p, ptr, hits, ptrtos);
    if count[ptr[0]] > hits[0] {
      EnteredBreaksEnclosed(g, ptr, outside, Component(g, p), ptr[0]);
    }
  }

  lemma SaturatedEdge(g: Graph, p: Ref, ptr: seq<Ref>, hits: seq<int>, ptrtos: seq<seq<nat>>, inClique: seq<bool>, a: Ref, b: Ref)
    requires Walked(g, p, ptr, hits, ptrtos, |ptr|, 0) && Saturated(ptr, ptrtos, inClique)
    requires a in ptr && Edge(g, a, b) && b in ChosenOf(ptr, inClique)
    ensures a in ChosenOf(ptr, inClique)
  {
    var k :| 0 <= k < |ptr| && ptr[k] == a;
    var l :| 0 <= l < |g[a]| && g[a][l] == b;
    assert Points(ptr, ptrtos[k], Visited(g, ptr, |ptr|, 0, k));
    assert ptr[ptrtos[k][l]] == b;
    var m :| 0 <= m < |ptr| && inClique[m] && ptr[m] == b;
    assert m == ptrtos[k][l];
    assert !PointsOutside(ptrtos[k], inClique);
  }

  lemma SaturatedIsComponent(g: Graph, p: Ref, ptr: seq<Ref>, hits: seq<int>, ptrtos: seq<seq<nat>>, inClique: seq<bool>,
                             count: map<Ref, int>)
    requires Walked(g, p, ptr, hits, ptrtos, |ptr|, 0) && Saturated(ptr, ptrtos, inClique)
    requires Growing(g, p, ptr, hits, inClique, count)
    ensures ChosenOf(ptr, inClique) == Component(g, p)
  {
    var c := ChosenOf(ptr, inClique);
    ListIsClosed(g, p, ptr, hits, ptrtos);
    var rest := Elements(ptr) - c;
    assert Closed(g, rest) by {
      forall a, b | a in rest && Edge(g, a, b)
        ensures b in rest
      {
        if b in c {
          SaturatedEdge(g, p, ptr, hits, ptrtos, inClique, a, b);
        }
      }
    }
    forall x | x in Component(g, p)
      ensures x in c
    {
      if x in rest {
        ClosedContains(g, rest, x, p);
      }
    }
  }

  lemma SaturatedIsEnclosed(g: Graph, p: Ref, ptr: seq<Ref>, hits: seq<int>, ptrtos: seq<seq<nat>>, inClique: seq<bool>,
                            count: map<Ref, int>, outside: multiset<Ref>)
    requires Walked(g, p, ptr, hits, ptrtos, |ptr|, 0) && Saturated(ptr, ptrtos, inClique)
    requires Growing(g, p, ptr, hits, inClique, count) && Exact(g, count, outside)
    ensures ChosenOf(ptr, inClique) == Component(g, p) && Enclosed(g, outside, Component(g, p))
  {
    SaturatedIsComponent(g, p, ptr, hits, ptrtos, inClique, count);
    var c := ChosenOf(ptr, inClique);
    forall x | x in c
      ensures x !in Incoming(g - c) + outside
    {
      var k :| 0 <= k < |ptr| && inClique[k] && ptr[k] == x;
      HitsOfExact(g, p, ptr, hits, ptrtos, count, outside, k);
      if x in Incoming(g - c) {
        IncomingMember(g - c, x);
        var y :| Edge(g - c, y, x);
        if y in ptr {
          SaturatedEdge(g, p, ptr, hits, ptrtos, inClique, y, x);
        } else {
          assert Edge(g - Elements(ptr), y, x);
          IncomingMember(g - Elements(ptr), x);
        }
      }
    }
  }

  lemma EnteredBreaksEnclosed(g: Graph, ptr: seq<Ref>, outside: multiset<Ref>, c: set<Ref>, x: Ref)
    requires x in c && x in Incoming(g - Elements(ptr)) + outside
    requires c <= Elements(ptr)
    ensures !Enclosed(g, outside, c)
  {
    if x !in outside {
      IncomingMember(g - Elements(ptr), x);
      var y :| Edge(g - Elements(ptr), y, x);
      assert Edge(g - c, y, x);
      IncomingMember(g - c, x);
    }
    assert x in Incoming(g - c) + outside;
  }

  lemma ListedFits(g: Graph, ptr: seq<Ref>)
    requires AllDistinct(ptr) && forall k :: 0 <= k < |ptr| ==> ptr[k] in g
    ensures |ptr| <= |g|
  {
    DistinctFits(ptr, g.Keys);
  }

  lemma SeenIsListed(g: Graph, ptr: seq<Ref>, ptrtos: seq<seq<nat>>, i: nat, j: nat, x: Ref)
    requires forall k :: 0 <= k < |ptr| ==> ptr[k] in g
    requires i < |ptr| && j <= |g[ptr[i]]| && Linked(g, ptr, ptrtos, i, j)
    requires x in Seen(g, ptr, i, j)
    ensures x in ptr
  {
    var k: nat;
    if x in EdgesOf(g, ptr[..i]) {
      EdgesOfMember(g, ptr[..i], x);
      k :| k < i && x in g[ptr[k]];
    } else {
      k := i;
    }
    var refs := Visited(g, ptr, i, j, k);
    assert x in refs;
    var l :| 0 <= l < |refs| && refs[l] == x;
    assert Points(ptr, ptrtos[k], refs);
    assert ptr[ptrtos[k][l]] == x;
  }

  lemma SeenNextReference(g: Graph, ptr: seq<Ref>, i: nat, j: nat)
    requires forall x :: x in ptr ==> x in g
    requires i < |ptr| && j < |g[ptr[i]]|
    ensures Seen(g, ptr, i, j + 1) == Seen(g, ptr, i, j) + multiset{g[ptr[i]][j]}
  {
    var refs := g[ptr[i]];
    assert refs[..j + 1] == refs[..j] + [refs[j]];
  }

  lemma SeenNextObject(g: Graph, ptr: seq<Ref>, i: nat)
    requires forall x :: x in ptr ==> x in g
    requires i < |ptr|
    ensures Seen(g, ptr, i + 1, 0) == Seen(g, ptr, i, |g[ptr[i]]|)
  {
    var head := ptr[..i + 1];
    assert head[..|head| - 1] == ptr[..i];
    var refs := g[ptr[i]];
    assert refs[..|refs|] == refs;
    if i + 1 < |ptr| {
      assert g[ptr[i + 1]][..0] == [];
    }
  }

  lemma NextObject(g: Graph, p: Ref, ptr: seq<Ref>, hits: seq<int>, ptrtos: seq<seq<nat>>, i: nat)
    requires Listed(g, p, ptr) && i < |ptr| && Walked(g, p, ptr, hits, ptrtos, i, |g[ptr[i]]|)
    ensures Walked(g, p, ptr, hits, ptrtos, i + 1, 0)
  {
    SeenNextObject(g, ptr, i);
    assert g[ptr[i]][..|g[ptr[i]]|] == g[ptr[i]];
    forall k | 0 <= k < |ptr|
      ensures Points(ptr, ptrtos[k], Visited(g, ptr, i + 1, 0, k))
    {
      assert Points(ptr, ptrtos[k], Visited(g, ptr, i, |g[ptr[i]]|, k));
    }
  }

  lemma LinkedNext(g: Graph, ptr0: seq<Ref>, ptrtos0: seq<seq<nat>>, i: nat, j: nat, k: nat, ptr: seq<Ref>, ptrtos: seq<seq<nat>>)
    requires forall l :: 0 <= l < |ptr| ==> ptr[l] in g
    requires i < |ptr0| && ptr0 <= ptr && j < |g[ptr0[i]]| && k < |ptr| && ptr[k] == g[ptr0[i]][j]
    requires Linked(g, ptr0, ptrtos0, i, j) && |ptr| <= |ptr0| + 1
    requires ptrtos == (if |ptr| == |ptr0| then ptrtos0 else ptrtos0 + [[]])[i := ptrtos0[i] + [k]]
    ensures Linked(g, ptr, ptrtos, i, j + 1)
  {
    forall l | 0 <= l < |ptr|
      ensures Points(ptr, ptrtos[l], Visited(g, ptr, i, j + 1, l))
    {
      if l < |ptr0| {
        assert Points(ptr0, ptrtos0[l], Visited(g, ptr0, i, j, l));
      }
    }
  }

  lemma CountedNext(ptr0: seq<Ref>, hits0: seq<int>, m: multiset<Ref>, x: Ref, k: nat, ptr: seq<Ref>, hits: seq<int>)
    requires Counted(ptr0, hits0, m) && AllDistinct(ptr) && k < |ptr| && ptr[k] == x
    requires x !in ptr0 ==> x !in m
    requires if x in ptr0 then ptr == ptr0 else ptr == ptr0 + [x]
    requires if x in ptr0 then hits == hits0[k := hits0[k] + 1] else hits == hits0 + [1]
    ensures Counted(ptr, hits, m + multiset{x})
  {
  }

  lemma AddedOne(g: Graph, p: Ref, ptr0: seq<Ref>, hits0: seq<int>, ptrtos0: seq<seq<nat>>, i: nat, j: nat, k: nat,
                 ptr: seq<Ref>, hits: seq<int>, ptrtos: seq<seq<nat>>)
    requires Walked(g, p, ptr0, hits0, ptrtos0, i, j) && Closed(g, g.Keys)
    requires i < |ptr0| && j < |g[ptr0[i]]| && k < |ptr| && ptr[k] == g[ptr0[i]][j]
    requires if ptr[k] in ptr0 then ptr == ptr0 else ptr == ptr0 + [ptr[k]]
    requires if ptr[k] in ptr0 then hits == hits0[k := hits0[k] + 1] else hits == hits0 + [1]
    requires ptrtos == (if ptr[k] in ptr0 then ptrtos0 else ptrtos0 + [[]])[i := ptrtos0[i] + [k]]
    ensures Walked(g, p, ptr, hits, ptrtos, i, j + 1)
  {
    var x := ptr[k];
    assert Listed(g, p, ptr) by {
      assert Edge(g, ptr0[i], x);
      ReachesLast(g, p, ptr0[i], x);
    }
    LinkedNext(g, ptr0, ptrtos0, i, j, k, ptr, ptrtos);
    assert Seen(g, ptr, i, j) == Seen(g, ptr0, i, j) by {
      assert ptr[..i] == ptr0[..i];
    }
    SeenNextReference(g, ptr, i, j);
    if x in Seen(g, ptr0, i, j) {
      SeenIsListed(g, ptr0, ptrtos0, i, j, x);
    }
    CountedNext(ptr0, hits0, Seen(g, ptr0, i, j), x, k, ptr, hits);
  }
}
