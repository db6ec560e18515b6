/** Collecting the types a type depends on (minimal/src/type_list.c), for types that share one layer. */
module TypeList {
  import opened Graphs
  import opened Options
  import opened Pigeonhole

  type Ref = nat

  /** Syntax trees of types; Other stands for every node kind that does not occur in a type. */
  datatype Spec =
    | Nil | Integer | ParameterList | Other
    | Identifier(name: string)
    | Pointer(name: string)
    | TypeSpec(def: Spec)
    | Bracket(def: Spec)
    | TypeFunction(from: Spec, to: Spec)
    | Product(branches: seq<Spec>)
    | Sum(branches: seq<Spec>)

  datatype TypeValue = TypeValue(typeobj: Option<Ref>, spec: Option<Spec>)

  predicate IsBuiltIn(name: string) {
    name in {"int8", "int16", "int32", "int64", "uint8", "uint16", "uint32", "uint64", "ieeesingle",
             "ieeedouble", "bool", "asciichar", "unicodechar", "string", "type", "tuplespace"}
  }

  /** The layer's names and the types they stand for. */
  type Layer = map<string, Ref>
  type Types = map<Ref, TypeValue>

  function Lookup(layer: Layer, name: string): seq<Ref> {
    if IsBuiltIn(name) || name !in layer then [] else [layer[name]]
  }

  /** The types a tree names, itself or below a pointer. */
  function Named(layer: Layer, t: Spec): seq<Ref> {
    match t
    case Identifier(name) => Lookup(layer, name)
    case Pointer(name) => Lookup(layer, name)
    case TypeSpec(d) => Named(layer, d)
    case Bracket(d) => Named(layer, d)
    case TypeFunction(a, b) => Named(layer, a) + Named(layer, b)
    case Product(bs) => NamedBy(layer, bs)
    case Sum(bs) => NamedBy(layer, bs)
    case _ => []
  }

  function NamedBy(layer: Layer, ts: seq<Spec>): seq<Ref> {
    if ts == [] then [] else Named(layer, ts[0]) + NamedBy(layer, ts[1..])
  }

  // ---- What a tree names, by place -----------------------------------------------------------------

  /** The i-th branch of a tree, through which types are named. */
  function Branch(t: Spec, i: nat): Option<Spec> {
    match t
    case TypeSpec(d) => if i == 0 then Some(d) else None
    case Bracket(d) => if i == 0 then Some(d) else None
    case TypeFunction(a, b) => if i == 0 then Some(a) else if i == 1 then Some(b) else None
    case Product(bs) => if i < |bs| then Some(bs[i]) else None
    case Sum(bs) => if i < |bs| then Some(bs[i]) else None
    case _ => None
  }

  /** At the end of the path stands this name, itself or below a pointer. */
  predicate Occurs(t: Spec, path: seq<nat>, name: string)
    decreases path
  {
    if path == [] then t == Identifier(name) || t == Pointer(name)
    else Branch(t, path[0]).Some? && Occurs(Branch(t, path[0]).value, path[1..], name)
  }

  /** Some name that occurs in t, and is not built in, stands for r. */
  ghost predicate NamesType(layer: Layer, t: Spec, r: Ref) {
    exists path, name :: Occurs(t, path, name) && !IsBuiltIn(name) && name in layer && layer[name] == r
  }

  /** t names what one of its branches names. */
  lemma NamesThroughBranch(layer: Layer, t: Spec, r: Ref)
    requires !t.Identifier? && !t.Pointer?
    ensures NamesType(layer, t, r) <==> exists i: nat :: Branch(t, i).Some? && NamesType(layer, Branch(t, i).value, r)
  {
    hide Branch, IsBuiltIn;
    if NamesType(layer, t, r) {
      var path, name :| Occurs(t, path, name) && !IsBuiltIn(name) && name in layer && layer[name] == r;
      assert path != [];
      assert Occurs(Branch(t, path[0]).value, path[1..], name);
      assert NamesType(layer, Branch(t, path[0]).value, r);
    }
    if i: nat :| Branch(t, i).Some? && NamesType(layer, Branch(t, i).value, r) {
      var path, name :| Occurs(Branch(t, i).value, path, name) && !IsBuiltIn(name) && name in layer && layer[name] == r;
      assert ([i] + path)[1..] == path;
      assert Occurs(t, [i] + path, name);
    }
  }

  lemma NamesItself(layer: Layer, t: Spec, r: Ref)
    requires t.Identifier? || t.Pointer?
    ensures NamesType(layer, t, r) <==> !IsBuiltIn(t.name) && t.name in layer && layer[t.name] == r
  {
    hide IsBuiltIn;
    assert Occurs(t, [], t.name);
  }

  /** The types found in a tree are those that occur in it by name. */
  lemma {:induction false} NamedOccurs(layer: Layer, t: Spec, r: Ref)
    ensures r in Named(layer, t) <==> NamesType(layer, t, r)
    decreases t, 1
  {
    hide NamesType, IsBuiltIn;
    if t.Identifier? || t.Pointer? {
      NamesItself(layer, t, r);
    } else {
      NamesThroughBranch(layer, t, r);
      match t
      case TypeSpec(d) =>
        NamedOccurs(layer, d, r);
        assert Branch(t, 0) == Some(d);
      case Bracket(d) =>
        NamedOccurs(layer, d, r);
        assert Branch(t, 0) == Some(d);
      case TypeFunction(a, b) =>
        NamedOccurs(layer, a, r);
        NamedOccurs(layer, b, r);
        assert Branch(t, 0) == Some(a) && Branch(t, 1) == Some(b);
      case Product(bs) => NamedByOccurs(layer, t, bs, r);
      case Sum(bs) => NamedByOccurs(layer, t, bs, r);
      case _ =>
    }
  }

  lemma NamedByOccurs(layer: Layer, t: Spec, bs: seq<Spec>, r: Ref)
    requires t == Product(bs) || t == Sum(bs)
    ensures r in NamedBy(layer, bs) <==> exists i: nat :: Branch(t, i).Some? && NamesType(layer, Branch(t, i).value, r)
    decreases t, 0
  {
    hide NamesType, Named;
    NamedByAt(layer, bs, r);
    forall i: nat | i < |bs|
      ensures r in Named(layer, bs[i]) <==> NamesType(layer, bs[i], r)
    {
      NamedOccurs(layer, bs[i], r);
    }
    forall i: nat
      ensures Branch(t, i) == if i < |bs| then Some(bs[i]) else None
    {
    }
    if i: nat :| i < |bs| && r in Named(layer, bs[i]) {
      assert Branch(t, i).Some?;
    }
  }

  lemma {:induction false} NamedByAt(layer: Layer, bs: seq<Spec>, r: Ref)
    ensures r in NamedBy(layer, bs) <==> exists i: nat :: i < |bs| && r in Named(layer, bs[i])
  {
    hide Named;
    if bs != [] {
      NamedByAt(layer, bs[1..], r);
      if i: nat :| i < |bs| && r in Named(layer, bs[i]) {
        assert i == 0 || bs[1..][i - 1] == bs[i];
      }
      if i: nat :| i < |bs[1..]| && r in Named(layer, bs[1..][i]) {
        assert bs[1..][i] == bs[i + 1];
      }
    }
  }

  /** The type depends on r directly: r is its type object, or occurs by name in its tree. */
  ghost predicate DependsDirectly(layer: Layer, t: TypeValue, r: Ref) {
    t.typeobj == Some(r) || (t.spec.Some? && NamesType(layer, t.spec.value, r))
  }

  function Uses(layer: Layer, t: TypeValue): seq<Ref> {
    Opt(t.typeobj) + (if t.spec.Some? then Named(layer, t.spec.value) else [])
  }

  /** What each type depends on directly. */
  ghost function Dependencies(types: Types, layer: Layer): map<Ref, seq<Ref>> {
    map r | r in types :: Uses(layer, types[r])
  }

  lemma DependenciesAre(types: Types, layer: Layer, a: Ref, b: Ref)
    ensures Edge(Dependencies(types, layer), a, b) <==> a in types && DependsDirectly(layer, types[a], b)
  {
    hide Named, NamesType;
    if a in types && types[a].spec.Some? {
      NamedOccurs(layer, types[a].spec.value, b);
    }
  }

  /** The list holds the type, with each member what it depends on directly, and nothing that is not needed for
      this. */
  ghost predicate Lists(types: Types, layer: Layer, type': Ref, list: seq<Ref>) {
    && type' in list && (forall r :: r in list ==> r in types)
    && (forall r, x :: r in list && r in types && DependsDirectly(layer, types[r], x) ==> x in list)
    && (forall x :: x in list && x != type' ==> exists r :: r in list && r in types && DependsDirectly(layer, types[r], x))
    && (forall s: set<Ref> :: type' in s && (forall r, x :: r in s && r in types && DependsDirectly(layer, types[r], x) ==> x in s)
          ==> forall x :: x in list ==> x in s)
  }

  lemma ReachedIsListed(types: Types, layer: Layer, type': Ref, list: seq<Ref>)
    requires (forall r :: r in list ==> r in types) && forall r :: r in list <==> Reaches(Dependencies(types, layer), type', r)
    ensures Lists(types, layer, type', list)
  {
    hide Reaches, Dependencies, DependsDirectly;
    var g := Dependencies(types, layer);
    ReachesSelf(g, type');
    forall r, x | r in list && r in types && DependsDirectly(layer, types[r], x)
      ensures x in list
    {
      DependenciesAre(types, layer, r, x);
      ReachesLast(g, type', r, x);
    }
    forall x | x in list && x != type'
      ensures exists r :: r in list && r in types && DependsDirectly(layer, types[r], x)
    {
      var r := LastEdge(g, type', x);
      DependenciesAre(types, layer, r, x);
    }
    forall s: set<Ref>, x | type' in s && (forall r, x :: r in s && r in types && DependsDirectly(layer, types[r], x) ==> x in s) && x in list
      ensures x in s
    {
      forall a, b | a in s && Edge(g, a, b)
        ensures b in s
      {
        DependenciesAre(types, layer, a, b);
      }
      ClosedContains(g, s, type', x);
    }
  }

  /** What names and type objects refer to is a type with a tree. */
  ghost predicate Wellformed(types: Types, layer: Layer) {
    && (forall name :: name in layer ==> layer[name] in types && types[layer[name]].spec.Some?)
    && (forall r :: r in types && types[r].typeobj.Some? ==>
          types[r].typeobj.value in types && types[types[r].typeobj.value].spec.Some?)
  }

  ghost predicate Includes(list: seq<Ref>, refs: seq<Ref>) {
    forall r :: r in refs ==> r in list
  }

  /** From old to new, types were added to the list, all of them types that from depends on; each of them,
      except those in open, with all its dependencies. */
  ghost predicate Grows(types: Types, layer: Layer, old': seq<Ref>, new': seq<Ref>, open: set<Ref>, from: Ref) {
    && AllDistinct(new') && |old'| <= |new'| && new'[..|old'|] == old'
    && (forall r :: r in new' ==> r in types)
    && (forall r :: r in new' && r !in old' ==> Reaches(Dependencies(types, layer), from, r))
    && (forall r :: r in new' && r !in old' && r !in open ==> Includes(new', Dependencies(types, layer)[r]))
  }

  lemma GrowsNot(types: Types, layer: Layer, list: seq<Ref>, from: Ref)
    requires AllDistinct(list) && forall r :: r in list ==> r in types
    ensures Grows(types, layer, list, list, {}, from)
  {
  }

  lemma GrowsKeeps(types: Types, layer: Layer, a: seq<Ref>, b: seq<Ref>, open: set<Ref>, from: Ref)
    requires Grows(types, layer, a, b, open, from)
    ensures forall r :: r in a ==> r in b
  {
    forall r | r in a
      ensures r in b
    {
      var i :| 0 <= i < |a| && a[i] == r;
      assert b[..|a|][i] == b[i];
    }
  }

  lemma GrowsTwice(types: Types, layer: Layer, a: seq<Ref>, b: seq<Ref>, c: seq<Ref>, open: set<Ref>, from: Ref)
    requires Grows(types, layer, a, b, open, from) && Grows(types, layer, b, c, {}, from)
    ensures Grows(types, layer, a, c, open, from)
  {
    hide Reaches, Dependencies;
    GrowsKeeps(types, layer, a, b, open, from);
    GrowsKeeps(types, layer, b, c, {}, from);
    assert c[..|a|] == c[..|b|][..|a|];
  }

  /** The dependencies of a type that was open are there now. */
  lemma GrowsClosed(types: Types, layer: Layer, a: seq<Ref>, b: seq<Ref>, from: Ref, r: Ref)
    requires Grows(types, layer, a, b, {r}, from) && r in types && Includes(b, Dependencies(types, layer)[r])
    ensures Grows(types, layer, a, b, {}, from)
  {
    hide Reaches, Dependencies;
  }

  lemma GrowsByOne(types: Types, layer: Layer, a: seq<Ref>, r: Ref, from: Ref)
    requires AllDistinct(a) && (forall x :: x in a ==> x in types) && r in types && r !in a
    requires Reaches(Dependencies(types, layer), from, r)
    ensures Grows(types, layer, a, a + [r], {r}, from)
  {
    hide Reaches;
  }

  lemma GrowsAllDistinct(types: Types, layer: Layer, a: seq<Ref>, b: seq<Ref>, open: set<Ref>, from: Ref)
    requires Grows(types, layer, a, b, open, from)
    ensures AllDistinct(b) && forall r :: r in b ==> r in types
  {
  }

  ghost function Left(types: Types, list: seq<Ref>): nat {
    |types.Keys - (set r | r in list)|
  }

  lemma LeftShrinks(types: Types, a: seq<Ref>, b: seq<Ref>)
    requires forall r :: r in a ==> r in b
    ensures Left(types, b) <= Left(types, a)
    ensures forall r :: r in types && r in b && r !in a ==> Left(types, b) < Left(types, a)
  {
    var s, t := types.Keys - (set r | r in a), types.Keys - (set r | r in b);
    SubsetSize(t, s);
    forall r | r in types && r in b && r !in a
      ensures |t| < |s|
    {
      SubsetSize(t, s - {r});
    }
  }

  lemma DependsOn(types: Types, layer: Layer, from: Ref, r: Ref, x: Ref)
    requires r in types && Reaches(Dependencies(types, layer), from, r) && x in Uses(layer, types[r])
    ensures Reaches(Dependencies(types, layer), from, x)
  {
    ReachesLast(Dependencies(types, layer), from, r, x);
  }

  /** What a tree names can be reached. */
  ghost predicate AllReached(types: Types, layer: Layer, from: Ref, refs: seq<Ref>) {
    forall x :: x in refs ==> Reaches(Dependencies(types, layer), from, x)
  }

  lemma SpecReached(types: Types, layer: Layer, from: Ref, r: Ref)
    requires r in types && Reaches(Dependencies(types, layer), from, r) && types[r].spec.Some?
    ensures AllReached(types, layer, from, Named(layer, types[r].spec.value))
  {
    hide Reaches;
    forall x | x in Named(layer, types[r].spec.value)
      ensures Reaches(Dependencies(types, layer), from, x)
    {
      DependsOn(types, layer, from, r, x);
    }
  }

  lemma Complete(types: Types, layer: Layer, list: seq<Ref>, r: Ref)
    requires r in types
    requires types[r].typeobj.Some? ==> types[r].typeobj.value in list
    requires types[r].spec.Some? ==> Includes(list, Named(layer, types[r].spec.value))
    ensures Includes(list, Dependencies(types, layer)[r])
  {
    hide Named;
  }

  lemma {:induction false} NamedBySplit(layer: Layer, bs: seq<Spec>, i: nat)
    requires i < |bs|
    ensures NamedBy(layer, bs[..i + 1]) == NamedBy(layer, bs[..i]) + Named(layer, bs[i])
    ensures forall x :: x in Named(layer, bs[i]) ==> x in NamedBy(layer, bs)
  {
    hide Named;
    if i == 0 {
      assert bs[..1][1..] == [];
    } else {
      assert bs[..i + 1][1..] == bs[1..][..i] && bs[..i][1..] == bs[1..][..i - 1];
      NamedBySplit(layer, bs[1..], i - 1);
    }
  }

  lemma IncludesMore(list: seq<Ref>, list': seq<Ref>, a: seq<Ref>, b: seq<Ref>)
    requires Includes(list, a) && (forall r :: r in list ==> r in list') && Includes(list', b)
    ensures Includes(list', a + b)
  {
  }

  /** A list with everything its members depend on, all of it reachable from the first, is what the first
      depends on, directly or not. */
  lemma CollectedExactly(types: Types, layer: Layer, list: seq<Ref>, from: Ref)
    requires Grows(types, layer, [], list, {}, from) && from in list
    ensures AllDistinct(list) && forall r :: r in list <==> Reaches(Dependencies(types, layer), from, r)
  {
    hide Reaches, Dependencies;
    var g := Dependencies(types, layer);
    var s := set r | r in list;
    assert Closed(g, s);
    forall r | Reaches(g, from, r)
      ensures r in list
    {
      ClosedContains(g, s, from, r);
    }
  }

  /** The growing list of a collection in progress. */
  class Collector {
    const types: Types
    const layer: Layer
    var list: seq<Ref>

    constructor (types: Types, layer: Layer)
      ensures this.types == types && this.layer == layer && list == []
    {
      this.types, this.layer, this.list := types, layer, [];
    }

    /** Adds a type that is not in the list, and everything its type object depends on; true if added. */
    method AddType(type': Ref, ghost from: Ref) returns (added: bool)
      requires Wellformed(types, layer) && type' in types && AllDistinct(list) && (forall r :: r in list ==> r in types)
      requires Reaches(Dependencies(types, layer), from, type')
      modifies this
      ensures added <==> type' !in old(list)
      ensures !added ==> list == old(list)
      ensures type' in list && Grows(types, layer, old(list), list, {type'}, from)
      ensures types[type'].typeobj.Some? ==> added ==> types[type'].typeobj.value in list
      decreases Left(types, list), 0, 0
    {
      var i := 0;
      while i < |list|
        invariant 0 <= i <= |list| && forall j :: 0 <= j < i ==> list[j] != type'
      {
        if list[i] == type' {
          GrowsNot(types, layer, list, from);
          return false;
        }
        i := i + 1;
      }
      hide Reaches, Dependencies, Grows, Left;
      ghost var start := list;
      GrowsByOne(types, layer, list, type', from);
      list := list + [type'];
      ghost var one := list;
      LeftShrinks(types, start, list);
      if types[type'].typeobj.Some? {
        var o := types[type'].typeobj.value;
        DependsOn(types, layer, from, type', o);
        var also := AddTypeAndSpec(o, from);
        GrowsTwice(types, layer, start, one, list, {type'}, from);
        GrowsKeeps(types, layer, one, list, {}, from);
      }
      return true;
    }

    /** Adds a type and, if it is new, what its tree depends on. */
    method AddTypeAndSpec(type': Ref, ghost from: Ref) returns (added: bool)
      requires Wellformed(types, layer) && type' in types && types[type'].spec.Some?
      requires AllDistinct(list) && (forall r :: r in list ==> r in types)
      requires Reaches(Dependencies(types, layer), from, type')
      modifies this
      ensures type' in list && Grows(types, layer, old(list), list, {}, from)
      decreases Left(types, list), 0, 1
    {
      hide Reaches, Dependencies, Grows, Left;
      ghost var start := list;
      added := AddType(type', from);
      ghost var one := list;
      if added {
        GrowsAllDistinct(types, layer, start, one, {type'}, from);
        GrowsKeeps(types, layer, start, one, {type'}, from);
        LeftShrinks(types, start, list);
        SpecReached(types, layer, from, type');
        AddNames(types[type'].spec.value, from);
        GrowsTwice(types, layer, start, one, list, {type'}, from);
        GrowsKeeps(types, layer, one, list, {}, from);
        Complete(types, layer, list, type');
        GrowsClosed(types, layer, start, list, from, type');
      } else {
        GrowsNot(types, layer, list, from);
      }
    }

    /** Adds the types a tree names and what they depend on. */
    method AddNames(t: Spec, ghost from: Ref)
      requires Wellformed(types, layer) && AllDistinct(list) && (forall r :: r in list ==> r in types)
      requires AllReached(types, layer, from, Named(layer, t))
      modifies this
      ensures Grows(types, layer, old(list), list, {}, from) && Includes(list, Named(layer, t))
      decreases Left(types, list), 1, t
    {
      hide Reaches, Dependencies, Grows, Left;
      GrowsNot(types, layer, list, from);
      match t
      case Identifier(name) =>
        if !IsBuiltIn(name) && name in layer {
          var also := AddTypeAndSpec(layer[name], from);
        }
      case Pointer(name) =>
        if !IsBuiltIn(name) && name in layer {
          var also := AddTypeAndSpec(layer[name], from);
        }
      case TypeSpec(d) => AddNames(d, from);
      case Bracket(d) => AddNames(d, from);
      case TypeFunction(a, b) =>
        ghost var start := list;
        AddNames(a, from);
        ghost var one := list;
        GrowsAllDistinct(types, layer, start, one, {}, from);
        GrowsKeeps(types, layer, start, one, {}, from);
        LeftShrinks(types, start, one);
        AddNames(b, from);
        GrowsKeeps(types, layer, one, list, {}, from);
        GrowsTwice(types, layer, start, one, list, {}, from);
      case Product(bs) => AddBranches(t, bs, from);
      case Sum(bs) => AddBranches(t, bs, from);
      case _ =>
    }

    method AddBranches(ghost t: Spec, bs: seq<Spec>, ghost from: Ref)
      requires t == Product(bs) || t == Sum(bs)
      requires Wellformed(types, layer) && AllDistinct(list) && (forall r :: r in list ==> r in types)
      requires AllReached(types, layer, from, NamedBy(layer, bs))
      modifies this
      ensures Grows(types, layer, old(list), list, {}, from) && Includes(list, NamedBy(layer, bs))
      decreases Left(types, list), 1, bs
    {
      hide Reaches, Dependencies, Grows, Left;
      ghost var start := list;
      GrowsNot(types, layer, list, from);
      var i := 0;
      while i < |bs|
        invariant 0 <= i <= |bs| && Grows(types, layer, start, list, {}, from)
        invariant Includes(list, NamedBy(layer, bs[..i]))
      {
        ghost var one := list;
        NamedBySplit(layer, bs, i);
        GrowsAllDistinct(types, layer, start, one, {}, from);
        GrowsKeeps(types, layer, start, one, {}, from);
        LeftShrinks(types, start, one);
        AddNames(bs[i], from);
        GrowsKeeps(types, layer, one, list, {}, from);
        GrowsTwice(types, layer, start, one, list, {}, from);
        IncludesMore(one, list, NamedBy(layer, bs[..i]), Named(layer, bs[i]));
        i := i + 1;
      }
      assert bs[..i] == bs;
    }

    /** The list of a type: the type and everything it depends on, each once. */
    method GetTypeList(type': Ref)
      requires Wellformed(types, layer) && type' in types
      modifies this
      ensures AllDistinct(list)
      ensures forall r :: r in list <==> Reaches(Dependencies(types, layer), type', r)
      ensures Lists(types, layer, type', list)
    {
      hide Reaches, Dependencies, Grows, Lists;
      list := [];
      ReachesSelf(Dependencies(types, layer), type');
      var added := AddType(type', type');
      ghost var one := list;
      if types[type'].spec.Some? {
        GrowsAllDistinct(types, layer, [], one, {type'}, type');
        SpecReached(types, layer, type', type');
        AddNames(types[type'].spec.value, type');
        GrowsTwice(types, layer, [], one, list, {type'}, type');
        GrowsKeeps(types, layer, one, list, {}, type');
      }
      Complete(types, layer, list, type');
      GrowsClosed(types, layer, [], list, type', type');
      CollectedExactly(types, layer, list, type');
      GrowsAllDistinct(types, layer, [], list, {}, type');
      ReachedIsListed(types, layer, type', list);
    }
  }
}
