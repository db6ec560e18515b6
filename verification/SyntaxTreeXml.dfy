/** Syntax trees as XML: the writer (minimal/src/serialise.c) and the reader (minimal/src/parsexml.c) over
    an abstract document tree. Element and attribute names are symbols. */
module SyntaxTreeXml {
  import opened Options
  import opened SyntaxTrees
  import Decimal

  datatype Tag =
    | MinimalTag | FunctionTag | ProductTypeTag | SumTypeTag | TypeFunctionTag | NilTag | IdTag | IntegerTag | StringTag
    | TypeTag | TypeSpecTag | PtrTag | ParameterListTag | ParamTag | CodeTag | OperatorTag | IndexTag | LetTag
    | FuncCallTag | ArgumentListTag | TupleTag | OtherTag(tag: string)

  datatype Attribute = NameAttribute | TypeIdAttribute | ValAttribute | OpAttribute | SizeAttribute | OtherAttribute(attribute: string)

  type Attributes = map<Attribute, string>

  datatype Node = TextNode(content: string) | Element(tag: Tag, attributes: Attributes, children: seq<Node>)

  /** The type ids that a layer knows for names. */
  type TypeIds = map<string, string>

  // ---- The writer ----------------------------------------------------------------------------------

  /** Minimal_serialiseTypeSpec: the nodes added to the parent. */
  function WriteType(t: Link, ids: TypeIds): seq<Node>
    decreases t, 1
  {
    if t.None? then [] else
      match t.value
      case Nil(_) => [Element(NilTag, map[], [])]
      case Identifier(id, name) => [Element(IdTag, IdAttributes(id, name, ids), [])]
      case TypeSpec(_, _, def) => WriteType(def, ids)
      case TypeFunction(_, bs) => [Element(TypeFunctionTag, map[], WriteTypes(bs, ids))]
      case ProductType(_, bs) => [Element(ProductTypeTag, map[], WriteTypes(bs, ids))]
      case SumType(_, bs) => [Element(SumTypeTag, map[], WriteTypes(bs, ids))]
      case Pointer(_, name) => [Element(PtrTag, map[NameAttribute := name], [])]
      case Bracket(_, def) => WriteType(def, ids)
      case ParameterList(_, _, _) => [WriteParameters(t)]
      case _ => []
  }

  function WriteTypes(bs: seq<Link>, ids: TypeIds): seq<Node>
    decreases bs
  {
    if bs == [] then [] else WriteType(bs[0], ids) + WriteTypes(bs[1..], ids)
  }

  function IdAttributes(id: Option<string>, name: string, ids: TypeIds): Attributes {
    if id.Some? then map[NameAttribute := name, TypeIdAttribute := id.value]
    else if name in ids then map[NameAttribute := name, TypeIdAttribute := ids[name]]
    else map[NameAttribute := name]
  }

  /** Minimal_serialiseParameterList. */
  function WriteParameters(t: Link): Node {
    Element(ParameterListTag, map[], ParameterNodes(t))
  }

  function ParameterNodes(t: Link): seq<Node> {
    if t.None? || !t.value.ParameterList? then [] else [Element(ParamTag, map[NameAttribute := t.value.name], [])] + ParameterNodes(t.value.next)
  }

  /** Minimal_serialiseCode. Where a child is missing the writer would fail. */
  function WriteCode(t: Link): seq<Node> {
    if t.None? then [] else
      match t.value
      case Identifier(_, name) => [Element(IdTag, map[NameAttribute := name], [])]
      case Integer(_, i) => [Element(IntegerTag, map[ValAttribute := Decimal.Write(i)], [])]
      case Str(_, s) => [Element(StringTag, map[ValAttribute := s], [])]
      case Operator(_, op, a, b) => [Element(OperatorTag, map[OpAttribute := op], WriteCode(a) + WriteCode(b))]
      case Index(_, e, i) => [Element(IndexTag, map[], WriteCode(e) + WriteCode(i))]
      case Let(_, v, e, c) => [Element(LetTag, map[], WriteCode(v) + WriteCode(e) + WriteCode(c))]
      case FunctionCall(_, f, args) => [Element(FuncCallTag, map[], WriteCode(f) + WriteCode(args))]
      case ArgumentList(_, a, next) => [Element(ArgumentListTag, map[], WriteCode(a) + WriteCode(next))]
      case _ => []
  }

  /** Minimal_serialiseFunction; extra stands for the attributes with type and identity. */
  function WriteFunction(name: string, typeSpec: Link, parameters: Link, code: Link, ids: TypeIds, extra: Attributes): Node {
    Element(FunctionTag, extra[NameAttribute := name],
      [Element(TypeTag, map[NameAttribute := name], WriteType(typeSpec, ids)), WriteParameters(parameters), Element(CodeTag, map[], WriteCode(code))])
  }

  // ---- The reader ----------------------------------------------------------------------------------

  /** What the reader finds when it keeps the first tree, what is after that, and the last. */
  function FirstOf(ls: seq<Link>): Link {
    if ls == [] then None else if ls[0].Some? then ls[0] else FirstOf(ls[1..])
  }

  function AfterFirst(ls: seq<Link>): seq<Link> {
    if ls == [] then [] else if ls[0].Some? then ls[1..] else AfterFirst(ls[1..])
  }

  function LastOf(ls: seq<Link>): Link {
    if ls == [] then None else ls[|ls| - 1]
  }

  /** Minimal_SyntaxTree_createArgumentList1. */
  function ArgumentList1(s: Link): Tree {
    if s.Some? && s.value.ArgumentList? then s.value else ArgumentList(None, s, None)
  }

  function AppendArguments(list: Tree, tail: Tree): Tree
    requires list.ArgumentList?
  {
    if list.next.Some? && list.next.value.ArgumentList? then list.(next := Some(AppendArguments(list.next.value, tail)))
    else list.(next := Some(tail))
  }

  /** Minimal_SyntaxTree_createArgumentList2; its four cases come to the same. */
  function ArgumentList2(s1: Link, s2: Link): Tree {
    AppendArguments(ArgumentList1(s1), ArgumentList1(s2))
  }

  /** Minimal_SyntaxTree_createParameterList1 and 2, for a name. */
  function AppendParameter(list: Link, name: string): Link {
    if list.None? || !list.value.ParameterList? then Some(ParameterList(None, name, None))
    else Some(ParameterList(list.value.typeId, list.value.name, AppendParameter(list.value.next, name)))
  }

  function ReadParameters(ns: seq<Node>, list: Link): Link {
    if ns == [] then list
    else if ns[0].Element? && ns[0].tag == ParamTag && NameAttribute in ns[0].attributes then
      ReadParameters(ns[1..], AppendParameter(list, ns[0].attributes[NameAttribute]))
    else ReadParameters(ns[1..], list)
  }

  /** An attribute; where it is missing and needed the reader would fail. */
  function Get(n: Node, a: Attribute): string
    requires n.Element?
  {
    if a in n.attributes then n.attributes[a] else ""
  }

  /** Minimal_xmlToSyntaxTree. */
  function Read(n: Node): Link
    decreases n, 1
  {
    if n.TextNode? then None else
      match n.tag
      case MinimalTag => Some(SequentialDefs(None, ReadAll(n.children)))
      case FunctionTag => Some(FunctionDef(None, Get(n, NameAttribute), None, ReadTagged(n.children, ParameterListTag, None), ReadTagged(n.children, CodeTag, None)))
      case ProductTypeTag => Some(ProductType(None, ReadAll(n.children)))
      case SumTypeTag => Some(SumType(None, ReadAll(n.children)))
      case TypeFunctionTag =>
        var r := ReadAll(n.children);
        Some(TypeFunction(None, [FirstOf(r), FirstOf(AfterFirst(r))]))
      case NilTag => Some(Nil(None))
      case IdTag => Some(Identifier(if TypeIdAttribute in n.attributes then Some(n.attributes[TypeIdAttribute]) else None, Get(n, NameAttribute)))
      case IntegerTag => Some(Integer(None, Decimal.Read(Get(n, ValAttribute))))
      case StringTag => Some(Str(None, Get(n, ValAttribute)))
      case TypeTag => Some(TypeSpec(None, Get(n, NameAttribute), LastOf(ReadAll(n.children))))
      case TypeSpecTag => LastOf(ReadAll(n.children))
      case PtrTag => Some(Pointer(None, Get(n, NameAttribute)))
      case ParameterListTag => ReadParameters(n.children, None)
      case CodeTag => FirstOf(ReadAll(n.children))
      case OperatorTag =>
        var r := ReadAll(n.children);
        Some(Operator(None, Get(n, OpAttribute), FirstOf(r), LastOf(AfterFirst(r))))
      case IndexTag =>
        var r := ReadAll(n.children);
        Some(Index(None, FirstOf(r), LastOf(AfterFirst(r))))
      case LetTag =>
        var r := ReadAll(n.children);
        var r' := AfterFirst(r);
        Some(Let(None, FirstOf(r), FirstOf(r'), LastOf(AfterFirst(r'))))
      case FuncCallTag =>
        var r := ReadAll(n.children);
        Some(FunctionCall(None, FirstOf(r), LastOf(AfterFirst(r))))
      case ArgumentListTag =>
        var r := ReadAll(n.children);
        var next := LastOf(AfterFirst(r));
        Some(if next.None? then ArgumentList1(FirstOf(r)) else ArgumentList2(FirstOf(r), next))
      case TupleTag =>
        var r := ReadAll(n.children);
        var size := Decimal.Read(Get(n, SizeAttribute));
        Some(ProductType(None, if size <= 0 then [] else if size < |r| then r[..size] else r))
      case _ => None
  }

  /** The trees read from the elements among the children. */
  function ReadAll(ns: seq<Node>): seq<Link>
    decreases ns, 0
  {
    if ns == [] then [] else (if ns[0].Element? then [Read(ns[0])] else []) + ReadAll(ns[1..])
  }

  /** The tree read from the last child with this tag. */
  function ReadTagged(ns: seq<Node>, tag: Tag, found: Link): Link
    decreases ns, 0
  {
    if ns == [] then found
    else ReadTagged(ns[1..], tag, if ns[0].Element? && ns[0].tag == tag then Read(ns[0]) else found)
  }

  // ---- Type specs ----------------------------------------------------------------------------------

  /** What a type spec should be read back as: brackets and names of type specs are gone, and identifiers
      have the type ids that are known. */
  function Kept(t: Link, ids: TypeIds): Link {
    if t.None? then None else
      match t.value
      case Nil(_) => Some(Nil(None))
      case Identifier(id, name) => Some(Identifier(if id.Some? then id else if name in ids then Some(ids[name]) else None, name))
      case TypeSpec(_, _, def) => Kept(def, ids)
      case TypeFunction(_, bs) => Some(TypeFunction(None, KeptAll(bs, ids)))
      case ProductType(_, bs) => Some(ProductType(None, KeptAll(bs, ids)))
      case SumType(_, bs) => Some(SumType(None, KeptAll(bs, ids)))
      case Pointer(_, name) => Some(Pointer(None, name))
      case Bracket(_, def) => Kept(def, ids)
      case ParameterList(_, name, next) => Some(ParameterList(None, name, KeptParameters(next)))
      case _ => t
  }

  function KeptAll(bs: seq<Link>, ids: TypeIds): (r: seq<Link>)
    ensures |r| == |bs|
  {
    if bs == [] then [] else [Kept(bs[0], ids)] + KeptAll(bs[1..], ids)
  }

  function KeptParameters(t: Link): Link {
    if t.None? || !t.value.ParameterList? then t
    else Some(ParameterList(None, t.value.name, KeptParameters(t.value.next)))
  }

  /** A chain of parameters and nothing else. */
  predicate IsParameters(t: Link) {
    t.None? || (t.value.ParameterList? && t.value.typeId == None && IsParameters(t.value.next))
  }

  /** A type without blanks, holes or anything that is no part of types; the result of a function type may be
      missing, also together with its argument. */
  predicate Solid(t: Link) {
    t.Some? &&
    match t.value
    case Nil(id) => id == None
    case Identifier(_, _) => true
    case Pointer(id, _) => id == None
    case ParameterList(_, _, _) => IsParameters(t)
    case ProductType(id, bs) => id == None && AllSolid(bs)
    case SumType(id, bs) => id == None && AllSolid(bs)
    case TypeFunction(id, bs) =>
      id == None && |bs| == 2 && (bs[0].Some? ==> Solid(bs[0])) && (bs[1].Some? ==> bs[0].Some? && Solid(bs[1]))
    case _ => false
  }

  predicate AllSolid(bs: seq<Link>) {
    bs == [] || (Solid(bs[0]) && AllSolid(bs[1..]))
  }

  lemma {:induction false} ReadAllJoin(a: seq<Node>, b: seq<Node>)
    ensures ReadAll(a + b) == ReadAll(a) + ReadAll(b)
  {
    hide Read;
    if a == [] {
      assert a + b == b;
    } else {
      assert (a + b)[0] == a[0] && (a + b)[1..] == a[1..] + b;
      ReadAllJoin(a[1..], b);
    }
  }

  lemma ReadAllOne(n: Node)
    ensures n.Element? ==> ReadAll([n]) == [Read(n)]
  {
    hide Read;
    assert [n][1..] == [];
  }

  // Parameters.

  function Names(t: Link): seq<string> {
    if t.None? || !t.value.ParameterList? then [] else [t.value.name] + Names(t.value.next)
  }

  function Chain(names: seq<string>): Link {
    if names == [] then None else Some(ParameterList(None, names[0], Chain(names[1..])))
  }

  lemma {:induction false} ChainAppend(names: seq<string>, name: string)
    ensures AppendParameter(Chain(names), name) == Chain(names + [name])
  {
    if names == [] {
      assert [name][1..] == [];
    } else {
      assert (names + [name])[1..] == names[1..] + [name];
      ChainAppend(names[1..], name);
    }
  }

  /** Reading the parameters of a written list puts their names, in order, after those read before. */
  lemma {:induction false} ParametersRead(t: Link, before: seq<string>)
    ensures ReadParameters(ParameterNodes(t), Chain(before)) == Chain(before + Names(t))
  {
    if t.None? || !t.value.ParameterList? {
      assert before + [] == before;
    } else {
      ChainAppend(before, t.value.name);
      ParametersRead(t.value.next, before + [t.value.name]);
      var ns := ParameterNodes(t);
      assert ns[1..] == ParameterNodes(t.value.next);
      assert before + [t.value.name] + Names(t.value.next) == before + Names(t);
    }
  }

  lemma {:induction false} ChainOfNames(t: Link)
    ensures IsParameters(Chain(Names(t)))
    ensures IsParameters(KeptParameters(t)) <==> KeptParameters(t) == Chain(Names(t))
  {
    if t.Some? && t.value.ParameterList? {
      ChainOfNames(t.value.next);
    }
  }

  /** A parameter list is read back as it was written, without type ids. */
  lemma ParameterListRoundTrip(t: Link)
    requires IsParameters(KeptParameters(t))
    ensures Read(WriteParameters(t)) == KeptParameters(t)
  {
    ParametersRead(t, []);
    ChainOfNames(t);
    assert [] + Names(t) == Names(t);
  }

  // What writing and keeping come to at the root.

  lemma ListForms(t: Tree, ids: TypeIds)
    requires t.ProductType? || t.SumType? || t.TypeFunction?
    ensures WriteType(Some(t), ids) == [Element(if t.ProductType? then ProductTypeTag else if t.SumType? then SumTypeTag else TypeFunctionTag, map[], WriteTypes(t.branches, ids))]
    ensures var ks := KeptAll(t.branches, ids);
      && Kept(Some(t), ids) == Some(if t.ProductType? then ProductType(None, ks) else if t.SumType? then SumType(None, ks) else TypeFunction(None, ks))
      && (!t.TypeFunction? ==> (Solid(Kept(Some(t), ids)) <==> AllSolid(ks)))
      && (t.TypeFunction? ==> (Solid(Kept(Some(t), ids)) <==> |ks| == 2 && (ks[0].Some? ==> Solid(ks[0])) && (ks[1].Some? ==> ks[0].Some? && Solid(ks[1]))))
  {
    hide WriteTypes, KeptAll, AllSolid;
  }

  lemma ReadList(tag: Tag, ns: seq<Node>)
    requires tag == ProductTypeTag || tag == SumTypeTag || tag == TypeFunctionTag
    ensures Read(Element(tag, map[], ns)) ==
      var r := ReadAll(ns);
      Some(if tag == ProductTypeTag then ProductType(None, r) else if tag == SumTypeTag then SumType(None, r)
           else TypeFunction(None, [FirstOf(r), FirstOf(AfterFirst(r))]))
  {
    hide ReadAll, FirstOf, AfterFirst;
  }

  // Types.

  lemma WrapperForms(t: Tree, ids: TypeIds)
    requires t.TypeSpec? || t.Bracket?
    ensures WriteType(Some(t), ids) == WriteType(t.def, ids) && Kept(Some(t), ids) == Kept(t.def, ids)
  {
    hide WriteTypes, KeptAll;
  }

  lemma NoTypeWritten(ids: TypeIds)
    ensures WriteType(None, ids) == []
  {
  }

  lemma SolidList(r: seq<Link>)
    requires AllSolid(r)
    ensures Solid(Some(ProductType(None, r))) && Solid(Some(SumType(None, r)))
  {
    hide AllSolid;
  }

  lemma SolidFunction(r: seq<Link>)
    requires var a, b := FirstOf(r), FirstOf(AfterFirst(r)); (a.Some? ==> Solid(a)) && (b.Some? ==> a.Some? && Solid(b))
    ensures Solid(Some(TypeFunction(None, [FirstOf(r), FirstOf(AfterFirst(r))])))
  {
    hide FirstOf, AfterFirst;
  }

  lemma WrittenParametersAreSolid(t: Link, ids: TypeIds)
    requires t.Some? && t.value.ParameterList?
    ensures |WriteType(t, ids)| == 1 && WriteType(t, ids)[0].Element? && Solid(Read(WriteType(t, ids)[0]))
  {
    ParametersRead(t, []);
    ChainOfNames(t);
    assert [] + Names(t) == Names(t);
  }

  lemma WrittenLeafIsSolid(k: Tree, ids: TypeIds)
    requires !k.TypeSpec? && !k.Bracket? && !k.TypeFunction? && !k.ProductType? && !k.SumType? && !k.ParameterList?
    ensures |WriteType(Some(k), ids)| <= 1
    ensures WriteType(Some(k), ids) != [] ==> WriteType(Some(k), ids)[0].Element? && Solid(Read(WriteType(Some(k), ids)[0]))
  {
    hide ReadAll, AllSolid, WriteTypes;
  }

  /** Every node written for a type is read as a solid type. */
  lemma {:induction false} WrittenIsSolid(t: Link, ids: TypeIds)
    ensures |WriteType(t, ids)| <= 1
    ensures WriteType(t, ids) != [] ==> WriteType(t, ids)[0].Element? && Solid(Read(WriteType(t, ids)[0]))
    decreases t, 1
  {
    hide Read, WriteType, Kept, Solid, ReadAll;
    if t.Some? {
      var k := t.value;
      match k
      case TypeSpec(_, _, def) =>
        WrapperForms(k, ids);
        WrittenIsSolid(def, ids);
      case Bracket(_, def) =>
        WrapperForms(k, ids);
        WrittenIsSolid(def, ids);
      case TypeFunction(_, bs) =>
        WrittenAreSolid(bs, ids);
        ListForms(k, ids);
        ReadList(TypeFunctionTag, WriteTypes(bs, ids));
        SolidPair(ReadAll(WriteTypes(bs, ids)));
        SolidFunction(ReadAll(WriteTypes(bs, ids)));
      case ProductType(_, bs) =>
        WrittenAreSolid(bs, ids);
        ListForms(k, ids);
        ReadList(ProductTypeTag, WriteTypes(bs, ids));
        SolidList(ReadAll(WriteTypes(bs, ids)));
      case SumType(_, bs) =>
        WrittenAreSolid(bs, ids);
        ListForms(k, ids);
        ReadList(SumTypeTag, WriteTypes(bs, ids));
        SolidList(ReadAll(WriteTypes(bs, ids)));
      case ParameterList(_, _, _) => WrittenParametersAreSolid(t, ids);
      case _ => WrittenLeafIsSolid(k, ids);
    } else {
      NoTypeWritten(ids);
    }
  }

  lemma {:induction false} WrittenAreSolid(bs: seq<Link>, ids: TypeIds)
    ensures AllSolid(ReadAll(WriteTypes(bs, ids)))
    decreases bs
  {
    hide Read, Solid, WriteType;
    if bs != [] {
      WrittenIsSolid(bs[0], ids);
      WrittenAreSolid(bs[1..], ids);
      var first, rest := WriteType(bs[0], ids), WriteTypes(bs[1..], ids);
      hide WriteTypes;
      ReadAllJoin(first, rest);
      if first != [] {
        assert first == [first[0]];
        ReadAllOne(first[0]);
        assert ([Read(first[0])] + ReadAll(rest))[1..] == ReadAll(rest);
      } else {
        assert [] + rest == rest;
      }
    }
  }

  lemma SolidPair(r: seq<Link>)
    requires AllSolid(r)
    ensures var a, b := FirstOf(r), FirstOf(AfterFirst(r)); (a.Some? ==> Solid(a)) && (b.Some? ==> a.Some? && Solid(b))
  {
    if |r| > 1 {
      assert AllSolid(r[1..]);
    }
  }

  lemma LeafRoundTrip(t: Tree, ids: TypeIds)
    requires t.Nil? || t.Identifier? || t.Pointer?
    ensures |WriteType(Some(t), ids)| == 1 && WriteType(Some(t), ids)[0].Element? && Read(WriteType(Some(t), ids)[0]) == Kept(Some(t), ids)
  {
  }

  /** A solid type is written as one node, which is read as that type. */
  lemma {:induction false} SolidRoundTrip(t: Link, ids: TypeIds)
    requires Solid(Kept(t, ids))
    ensures |WriteType(t, ids)| == 1 && WriteType(t, ids)[0].Element? && Read(WriteType(t, ids)[0]) == Kept(t, ids)
    decreases t, 2
  {
    hide Read, WriteType, Kept, Solid;
    SolidKinds(t, ids);
    var k := t.value;
    match k
    case TypeSpec(_, _, def) =>
      WrapperForms(t.value, ids);
      SolidRoundTrip(def, ids);
    case Bracket(_, def) =>
      WrapperForms(t.value, ids);
      SolidRoundTrip(def, ids);
    case TypeFunction(_, bs) =>
      ListForms(t.value, ids);
      ReadList(TypeFunctionTag, WriteTypes(bs, ids));
      SolidFunctionRoundTrip(t.value, ids);
    case ProductType(_, bs) =>
      ListForms(t.value, ids);
      ReadList(ProductTypeTag, WriteTypes(bs, ids));
      SolidRoundTripAll(bs, ids);
    case SumType(_, bs) =>
      ListForms(t.value, ids);
      ReadList(SumTypeTag, WriteTypes(bs, ids));
      SolidRoundTripAll(bs, ids);
    case ParameterList(_, _, _) =>
      ParametersForm(t, ids);
      ParameterListRoundTrip(t);
    case _ => LeafRoundTrip(k, ids);
  }

  lemma SolidKinds(t: Link, ids: TypeIds)
    requires Solid(Kept(t, ids))
    ensures t.Some?
    ensures var k := t.value;
      k.TypeSpec? || k.Bracket? || k.TypeFunction? || k.ProductType? || k.SumType? || k.ParameterList? || k.Nil? || k.Identifier? || k.Pointer?
  {
    hide KeptAll, AllSolid;
  }

  lemma ParametersForm(t: Link, ids: TypeIds)
    requires t.Some? && t.value.ParameterList? && Solid(Kept(t, ids))
    ensures WriteType(t, ids) == [WriteParameters(t)] && Kept(t, ids) == KeptParameters(t) && IsParameters(KeptParameters(t))
  {
  }

  lemma {:induction false} SolidRoundTripAll(bs: seq<Link>, ids: TypeIds)
    requires AllSolid(KeptAll(bs, ids))
    ensures ReadAll(WriteTypes(bs, ids)) == KeptAll(bs, ids)
    decreases bs
  {
    hide Solid, Read;
    if bs != [] {
      assert KeptAll(bs, ids)[1..] == KeptAll(bs[1..], ids);
      SolidRoundTrip(bs[0], ids);
      SolidRoundTripAll(bs[1..], ids);
      var first := WriteType(bs[0], ids);
      assert first == [first[0]];
      ReadAllJoin(first, WriteTypes(bs[1..], ids));
      ReadAllOne(first[0]);
    }
  }

  lemma {:induction false} SolidFunctionRoundTrip(t: Tree, ids: TypeIds)
    requires t.TypeFunction? && Solid(Kept(Some(t), ids))
    ensures var r := ReadAll(WriteTypes(t.branches, ids)); [FirstOf(r), FirstOf(AfterFirst(r))] == KeptAll(t.branches, ids)
    decreases t, 0
  {
    hide Solid, Read, Kept, WriteType;
    var bs := t.branches;
    ListForms(t, ids);
    KeptTwo(bs, ids);
    WriteTwo(bs, ids);
    ReadAllJoin(WriteType(bs[0], ids), WriteType(bs[1], ids));
    MissingOrSolid(bs[0], ids);
    MissingOrSolid(bs[1], ids);
    FirstTwo(Kept(bs[0], ids), Kept(bs[1], ids));
  }

  lemma KeptTwo(bs: seq<Link>, ids: TypeIds)
    requires |bs| == 2
    ensures KeptAll(bs, ids) == [Kept(bs[0], ids), Kept(bs[1], ids)]
  {
    hide Kept;
    assert bs[1..][1..] == [];
    assert KeptAll(bs[1..], ids) == [Kept(bs[1], ids)];
  }

  lemma FirstTwo(a: Link, b: Link)
    requires b.Some? ==> a.Some?
    ensures var r := (if a.None? then [] else [a]) + (if b.None? then [] else [b]);
      FirstOf(r) == a && FirstOf(AfterFirst(r)) == b
  {
    if a.Some? && b.Some? {
      assert ([a] + [b])[1..] == [b];
    }
  }

  lemma WriteTwo(bs: seq<Link>, ids: TypeIds)
    requires |bs| == 2
    ensures WriteTypes(bs, ids) == WriteType(bs[0], ids) + WriteType(bs[1], ids)
  {
    hide WriteType;
    assert bs[1..][1..] == [];
    assert WriteTypes(bs[1..], ids) == WriteType(bs[1], ids) + [];
  }

  lemma {:induction false} MissingOrSolid(t: Link, ids: TypeIds)
    requires Kept(t, ids).Some? ==> Solid(Kept(t, ids))
    ensures ReadAll(WriteType(t, ids)) == if Kept(t, ids).None? then [] else [Kept(t, ids)]
    decreases t, 3
  {
    hide Solid, Read;
    if Kept(t, ids).None? {
      MissingIsNotWritten(t, ids);
    } else {
      SolidRoundTrip(t, ids);
      var first := WriteType(t, ids);
      assert first == [first[0]];
      ReadAllOne(first[0]);
    }
  }

  lemma {:induction false} MissingIsNotWritten(t: Link, ids: TypeIds)
    requires Kept(t, ids).None?
    ensures WriteType(t, ids) == []
  {
    if t.Some? {
      match t.value
      case TypeSpec(_, _, def) => MissingIsNotWritten(def, ids);
      case Bracket(_, def) => MissingIsNotWritten(def, ids);
      case _ =>
    }
  }

  /** A solid type without type ids to add comes back as it is. */
  lemma SolidComesBack(t: Link)
    requires Solid(t)
    ensures var ns := WriteType(t, map[]); |ns| == 1 && ns[0].Element? && Read(ns[0]) == t
  {
    hide Solid, Read, WriteType, Kept;
    SolidIsKept(t);
    SolidRoundTrip(t, map[]);
  }

  /** An identifier keeps its type id, or gets the one that is known for its name. */
  lemma IdentifierComesBack(id: Option<string>, name: string, ids: TypeIds)
    ensures var ns := WriteType(Some(Identifier(id, name)), ids);
      |ns| == 1 && Read(ns[0]) == Some(Identifier(if id.Some? then id else if name in ids then Some(ids[name]) else None, name))
  {
    LeafRoundTrip(Identifier(id, name), ids);
  }

  lemma {:induction false} SolidIsKept(t: Link)
    requires Solid(t)
    ensures Kept(t, map[]) == t
    decreases t, 1
  {
    hide KeptAll, AllSolid;
    match t.value
    case ProductType(_, bs) => SolidAreKept(bs);
    case SumType(_, bs) => SolidAreKept(bs);
    case TypeFunction(_, bs) =>
      KeptTwo(bs, map[]);
      if bs[0].Some? {
        SolidIsKept(bs[0]);
      }
      if bs[1].Some? {
        SolidIsKept(bs[1]);
      }
      assert Kept(bs[0], map[]) == bs[0] && Kept(bs[1], map[]) == bs[1];
      assert KeptAll(bs, map[]) == bs;
    case ParameterList(_, _, next) => ParametersAreKept(next);
    case _ =>
  }

  lemma {:induction false} SolidAreKept(bs: seq<Link>)
    requires AllSolid(bs)
    ensures KeptAll(bs, map[]) == bs
    decreases bs
  {
    hide Solid, Kept;
    if bs != [] {
      SolidIsKept(bs[0]);
      SolidAreKept(bs[1..]);
    }
  }

  lemma {:induction false} ParametersAreKept(t: Link)
    requires IsParameters(t)
    ensures KeptParameters(t) == t
  {
    if t.Some? {
      ParametersAreKept(t.value.next);
    }
  }

  /** Writing a type spec and reading it back gives the type without brackets and names of type specs, with
      the type ids that are known, exactly if nothing is missing or blank where the reader needs it. */
  lemma TypeRoundTrip(t: Link, ids: TypeIds)
    ensures FirstOf(ReadAll(WriteType(t, ids))) == Kept(t, ids) <==> Kept(t, ids).None? || Solid(Kept(t, ids))
  {
    hide Solid, Read, Kept, WriteType;
    if Kept(t, ids).None? || Solid(Kept(t, ids)) {
      MissingOrSolid(t, ids);
    } else {
      WrittenIsSolid(t, ids);
      var ns := WriteType(t, ids);
      if ns != [] {
        assert ns == [ns[0]];
        ReadAllOne(ns[0]);
      }
    }
  }

  /** A product that ends in a blank comes back without it. */
  lemma BlankPartIsLost(bs: seq<Link>, ids: TypeIds)
    requires AllSolid(KeptAll(bs, ids))
    ensures FirstOf(ReadAll(WriteType(Some(ProductType(None, bs + [Some(Blank(None))])), ids))) == Some(ProductType(None, KeptAll(bs, ids)))
  {
    hide Read, WriteTypes, KeptAll, AllSolid;
    var t := ProductType(None, bs + [Some(Blank(None))]);
    ListForms(t, ids);
    WriteTypesAppend(bs, Some(Blank(None)), ids);
    var parts := WriteTypes(bs, ids);
    assert parts + [] == parts;
    SolidRoundTripAll(bs, ids);
    ReadList(ProductTypeTag, parts);
    hide WriteType;
    ReadAllOne(Element(ProductTypeTag, map[], parts));
  }

  // ---- Code ----------------------------------------------------------------------------------------

  /** Code the writer knows, with no child missing: identifiers, integers, strings, operators, indexing, let
      and calls, and blanks. */
  predicate IsCode(t: Link) {
    t.Some? &&
    match t.value
    case Blank(_) => true
    case Identifier(_, _) => true
    case Integer(_, _) => true
    case Str(_, _) => true
    case Operator(_, _, a, b) => IsCode(a) && IsCode(b)
    case Index(_, e, i) => IsCode(e) && IsCode(i)
    case Let(_, v, e, c) => IsCode(v) && IsCode(e) && IsCode(c)
    case FunctionCall(_, f, args) => IsCode(f) && IsCode(args)
    case ArgumentList(_, a, next) => IsCode(a) && (next.Some? ==> IsCode(next))
    case _ => false
  }

  /** No blanks, and argument lists only where they belong: after an argument that is none. */
  predicate IsProper(t: Link) {
    t.Some? ==>
      match t.value
      case Blank(_) => false
      case Operator(_, _, a, b) => IsProper(a) && IsProper(b)
      case Index(_, e, i) => IsProper(e) && IsProper(i)
      case Let(_, v, e, c) => IsProper(v) && IsProper(e) && IsProper(c)
      case FunctionCall(_, f, args) => IsProper(f) && IsProper(args)
      case ArgumentList(_, a, next) =>
        IsProper(a) && IsProper(next) && (a.Some? ==> !a.value.ArgumentList?) && (next.Some? ==> next.value.ArgumentList?)
      case _ => true
  }

  // What writing and reading come to at the root of code.

  lemma ReadPair(tag: Tag, attributes: Attributes, ns: seq<Node>, a: Tree, b: Tree)
    requires tag == OperatorTag || tag == IndexTag || tag == FuncCallTag || tag == ArgumentListTag
    requires ReadAll(ns) == [Some(a), Some(b)]
    requires tag == ArgumentListTag ==> !a.ArgumentList? && b.ArgumentList?
    ensures Read(Element(tag, attributes, ns)) ==
      Some(if tag == OperatorTag then Operator(None, Get(Element(tag, attributes, ns), OpAttribute), Some(a), Some(b))
           else if tag == IndexTag then Index(None, Some(a), Some(b))
           else if tag == FuncCallTag then FunctionCall(None, Some(a), Some(b))
           else ArgumentList(None, Some(a), Some(b)))
  {
    hide ReadAll;
    assert [Some(a), Some(b)][1..] == [Some(b)];
  }

  lemma ReadLet(ns: seq<Node>, a: Tree, b: Tree, c: Tree)
    requires ReadAll(ns) == [Some(a), Some(b), Some(c)]
    ensures Read(Element(LetTag, map[], ns)) == Some(Let(None, Some(a), Some(b), Some(c)))
  {
    hide ReadAll;
    assert [Some(a), Some(b), Some(c)][1..] == [Some(b), Some(c)] && [Some(b), Some(c)][1..] == [Some(c)];
  }

  lemma ReadLastArgument(ns: seq<Node>, a: Tree)
    requires ReadAll(ns) == [Some(a)] && !a.ArgumentList?
    ensures Read(Element(ArgumentListTag, map[], ns)) == Some(ArgumentList(None, Some(a), None))
  {
    hide ReadAll;
    assert [Some(a)][1..] == [];
  }

  lemma ReadCodeLeaf(t: Tree)
    requires t.Identifier? || t.Integer? || t.Str?
    ensures |WriteCode(Some(t))| == 1 && WriteCode(Some(t))[0].Element? && Read(WriteCode(Some(t))[0]) == Some(Bare(t))
  {
    hide Decimal.Read, Decimal.Write;
    if t.Integer? {
      Decimal.RoundTrip(t.value);
    }
  }

  lemma CodeForms(t: Tree)
    ensures t.Operator? ==> WriteCode(Some(t)) == [Element(OperatorTag, map[OpAttribute := t.operator], WriteCode(t.op1) + WriteCode(t.op2))]
    ensures t.Index? ==> WriteCode(Some(t)) == [Element(IndexTag, map[], WriteCode(t.expr) + WriteCode(t.index))]
    ensures t.Let? ==> WriteCode(Some(t)) == [Element(LetTag, map[], WriteCode(t.var') + WriteCode(t.letExpr) + WriteCode(t.code))]
    ensures t.FunctionCall? ==> WriteCode(Some(t)) == [Element(FuncCallTag, map[], WriteCode(t.function') + WriteCode(t.arguments))]
    ensures t.ArgumentList? ==> WriteCode(Some(t)) == [Element(ArgumentListTag, map[], WriteCode(t.argument) + WriteCode(t.next))]
  {
  }

  lemma BareForms(t: Tree)
    ensures t.Operator? ==> Bare(t) == Operator(None, t.operator, BareLink(t.op1), BareLink(t.op2))
    ensures t.Index? ==> Bare(t) == Index(None, BareLink(t.expr), BareLink(t.index))
    ensures t.Let? ==> Bare(t) == Let(None, BareLink(t.var'), BareLink(t.letExpr), BareLink(t.code))
    ensures t.FunctionCall? ==> Bare(t) == FunctionCall(None, BareLink(t.function'), BareLink(t.arguments))
    ensures t.ArgumentList? ==> Bare(t) == ArgumentList(None, BareLink(t.argument), BareLink(t.next))
    ensures Bare(t).ArgumentList? <==> t.ArgumentList?
  {
    hide BareLink, BareLinks;
  }

  lemma BareSome(t: Link)
    requires t.Some?
    ensures BareLink(t) == Some(Bare(t.value))
  {
    hide Bare;
  }

  ghost predicate ProperCode(t: Link) {
    IsCode(t) && IsProper(t)
  }

  lemma ProperParts(t: Link)
    requires ProperCode(t)
    ensures t.Some? && var k := t.value;
      && (k.Identifier? || k.Integer? || k.Str? || k.Operator? || k.Index? || k.Let? || k.FunctionCall? || k.ArgumentList?)
      && (k.Operator? ==> ProperCode(k.op1) && ProperCode(k.op2))
      && (k.Index? ==> ProperCode(k.expr) && ProperCode(k.index))
      && (k.Let? ==> ProperCode(k.var') && ProperCode(k.letExpr) && ProperCode(k.code))
      && (k.FunctionCall? ==> ProperCode(k.function') && ProperCode(k.arguments))
      && (k.ArgumentList? ==> ProperCode(k.argument) && !k.argument.value.ArgumentList?)
      && (k.ArgumentList? && k.next.Some? ==> ProperCode(k.next) && k.next.value.ArgumentList?)
  {
  }

  lemma CodeIsSome(t: Link)
    requires ProperCode(t)
    ensures t.Some?
  {
  }

  /** Proper code is read back as it was written, without type ids. */
  lemma {:induction false} ProperRoundTrip(t: Link)
    requires ProperCode(t)
    ensures |WriteCode(t)| == 1 && WriteCode(t)[0].Element? && Read(WriteCode(t)[0]) == BareLink(t)
    decreases t, 1
  {
    hide Read, WriteCode, BareLink, Bare, ProperCode, ReadAll;
    ProperParts(t);
    var k := t.value;
    CodeForms(k);
    BareForms(k);
    BareSome(t);
    match k
    case Operator(_, op, a, b) =>
      ProperOne(a);
      ProperOne(b);
      ReadAllJoin(WriteCode(a), WriteCode(b));
      ReadPair(OperatorTag, map[OpAttribute := op], WriteCode(a) + WriteCode(b), Bare(a.value), Bare(b.value));
    case Index(_, e, i) =>
      ProperOne(e);
      ProperOne(i);
      ReadAllJoin(WriteCode(e), WriteCode(i));
      ReadPair(IndexTag, map[], WriteCode(e) + WriteCode(i), Bare(e.value), Bare(i.value));
    case Let(_, v, e, c) =>
      ProperOne(v);
      ProperOne(e);
      ProperOne(c);
      ReadAllJoin(WriteCode(v), WriteCode(e));
      ReadAllJoin(WriteCode(v) + WriteCode(e), WriteCode(c));
      ReadLet(WriteCode(v) + WriteCode(e) + WriteCode(c), Bare(v.value), Bare(e.value), Bare(c.value));
    case FunctionCall(_, f, args) =>
      ProperOne(f);
      ProperOne(args);
      ReadAllJoin(WriteCode(f), WriteCode(args));
      ReadPair(FuncCallTag, map[], WriteCode(f) + WriteCode(args), Bare(f.value), Bare(args.value));
    case ArgumentList(_, _, _) => ProperArguments(k);
    case _ => ReadCodeLeaf(k);
  }

  lemma {:induction false} ProperArguments(k: Tree)
    requires k.ArgumentList? && ProperCode(Some(k))
    ensures |WriteCode(Some(k))| == 1 && WriteCode(Some(k))[0].Element? && Read(WriteCode(Some(k))[0]) == Some(Bare(k))
    decreases k, 0
  {
    hide Read, WriteCode, BareLink, Bare, ProperCode, ReadAll;
    ProperParts(Some(k));
    CodeForms(k);
    BareForms(k);
    var a, next := k.argument, k.next;
    ProperOne(a);
    BareForms(a.value);
    if next.Some? {
      ProperOne(next);
      BareForms(next.value);
      ReadAllJoin(WriteCode(a), WriteCode(next));
      ReadPair(ArgumentListTag, map[], WriteCode(a) + WriteCode(next), Bare(a.value), Bare(next.value));
    } else {
      NothingWritten();
      assert WriteCode(a) + WriteCode(next) == WriteCode(a);
      ReadLastArgument(WriteCode(a), Bare(a.value));
    }
  }

  lemma NothingWritten()
    ensures WriteCode(None) == [] && BareLink(None) == None
  {
  }

  lemma {:induction false} ProperOne(a: Link)
    requires ProperCode(a)
    ensures a.Some? && BareLink(a) == Some(Bare(a.value)) && ReadAll(WriteCode(a)) == [Some(Bare(a.value))]
    decreases a, 2
  {
    hide Read, WriteCode, Bare, ProperCode;
    CodeIsSome(a);
    ProperRoundTrip(a);
    BareSome(a);
    var m := WriteCode(a);
    assert m == [m[0]];
    ReadAllOne(m[0]);
  }

  /** Everything the reader makes of written code is proper, whatever was written. */
  lemma {:induction false} WrittenIsProper(t: Link)
    ensures |WriteCode(t)| <= 1
    ensures WriteCode(t) != [] ==> WriteCode(t)[0].Element? && IsProper(Read(WriteCode(t)[0]))
    decreases t, 0
  {
    hide Read, WriteCode, ReadAll, IsProper;
    if t.Some? {
      var k := t.value;
      CodeForms(k);
      match k
      case Operator(_, op, a, b) =>
        WrittenOneIsProper(a);
        WrittenOneIsProper(b);
        WrittenAreProper(a, b);
        ReadIsProper(OperatorTag, map[OpAttribute := op], WriteCode(a) + WriteCode(b));
      case Index(_, e, i) =>
        WrittenOneIsProper(e);
        WrittenOneIsProper(i);
        WrittenAreProper(e, i);
        ReadIsProper(IndexTag, map[], WriteCode(e) + WriteCode(i));
      case Let(_, v, e, c) =>
        WrittenOneIsProper(v);
        WrittenOneIsProper(e);
        WrittenOneIsProper(c);
        WrittenAreProper(v, e);
        ReadAllJoin(WriteCode(v) + WriteCode(e), WriteCode(c));
        AllProperJoin(ReadAll(WriteCode(v) + WriteCode(e)), ReadAll(WriteCode(c)));
        ReadIsProper(LetTag, map[], WriteCode(v) + WriteCode(e) + WriteCode(c));
      case FunctionCall(_, f, args) =>
        WrittenOneIsProper(f);
        WrittenOneIsProper(args);
        WrittenAreProper(f, args);
        ReadIsProper(FuncCallTag, map[], WriteCode(f) + WriteCode(args));
      case ArgumentList(_, a, next) =>
        WrittenOneIsProper(a);
        WrittenOneIsProper(next);
        WrittenAreProper(a, next);
        ReadIsProper(ArgumentListTag, map[], WriteCode(a) + WriteCode(next));
      case _ => LeafIsProper(k);
    } else {
      NothingWritten();
    }
  }

  ghost predicate AllProper(ls: seq<Link>) {
    forall l :: l in ls ==> IsProper(l)
  }

  lemma AllProperJoin(a: seq<Link>, b: seq<Link>)
    requires AllProper(a) && AllProper(b)
    ensures AllProper(a + b)
  {
  }

  lemma LeafIsProper(k: Tree)
    requires !k.Operator? && !k.Index? && !k.Let? && !k.FunctionCall? && !k.ArgumentList?
    ensures |WriteCode(Some(k))| <= 1
    ensures WriteCode(Some(k)) != [] ==> WriteCode(Some(k))[0].Element? && IsProper(Read(WriteCode(Some(k))[0]))
  {
  }

  lemma {:induction false} WrittenOneIsProper(a: Link)
    ensures AllProper(ReadAll(WriteCode(a)))
    decreases a, 1
  {
    hide Read, WriteCode, IsProper;
    WrittenIsProper(a);
    var m := WriteCode(a);
    if m != [] {
      assert m == [m[0]];
      ReadAllOne(m[0]);
    }
  }

  lemma {:induction false} WrittenAreProper(a: Link, b: Link)
    requires forall l :: l == a || l == b ==> AllProper(ReadAll(WriteCode(l)))
    ensures AllProper(ReadAll(WriteCode(a) + WriteCode(b)))
  {
    hide WriteCode, IsProper, ReadAll;
    ReadAllJoin(WriteCode(a), WriteCode(b));
    AllProperJoin(ReadAll(WriteCode(a)), ReadAll(WriteCode(b)));
  }

  lemma {:induction false} PickedAreProper(r: seq<Link>)
    requires AllProper(r)
    ensures IsProper(FirstOf(r)) && IsProper(LastOf(r)) && AllProper(AfterFirst(r))
  {
    hide IsProper;
    NoneIsProper();
    if r != [] {
      assert r[0] in r && r[|r| - 1] in r;
      assert AllProper(r[1..]) by {
        assert forall l :: l in r[1..] ==> l in r;
      }
      if r[0].None? {
        PickedAreProper(r[1..]);
      }
    }
  }

  lemma NoneIsProper()
    ensures IsProper(None)
  {
  }

  lemma {:induction false} AppendIsProper(list: Tree, tail: Tree)
    requires list.ArgumentList? && tail.ArgumentList? && IsProper(Some(list)) && IsProper(Some(tail))
    ensures IsProper(Some(AppendArguments(list, tail))) && AppendArguments(list, tail).ArgumentList?
  {
    if list.next.Some? {
      AppendIsProper(list.next.value, tail);
    }
  }

  lemma ListOneIsProper(s: Link)
    requires IsProper(s)
    ensures IsProper(Some(ArgumentList1(s)))
  {
  }

  lemma ReadIsProper(tag: Tag, attributes: Attributes, ns: seq<Node>)
    requires tag == OperatorTag || tag == IndexTag || tag == LetTag || tag == FuncCallTag || tag == ArgumentListTag
    requires AllProper(ReadAll(ns))
    ensures IsProper(Read(Element(tag, attributes, ns)))
  {
    hide ReadAll, FirstOf, AfterFirst, LastOf;
    var r := ReadAll(ns);
    PickedAreProper(r);
    PickedAreProper(AfterFirst(r));
    PickedAreProper(AfterFirst(AfterFirst(r)));
    if tag == ArgumentListTag {
      var next := LastOf(AfterFirst(r));
      ListOneIsProper(FirstOf(r));
      ListOneIsProper(next);
      AppendIsProper(ArgumentList1(FirstOf(r)), ArgumentList1(next));
    }
  }

  lemma {:induction false} BareKeepsProper(t: Link)
    requires IsCode(t)
    ensures IsProper(BareLink(t)) <==> IsProper(t)
  {
    var k := t.value;
    BareForms(k);
    match k
    case Operator(_, _, a, b) => BareKeepsProper(a); BareKeepsProper(b);
    case Index(_, e, i) => BareKeepsProper(e); BareKeepsProper(i);
    case Let(_, v, e, c) => BareKeepsProper(v); BareKeepsProper(e); BareKeepsProper(c);
    case FunctionCall(_, f, args) => BareKeepsProper(f); BareKeepsProper(args);
    case ArgumentList(_, a, next) =>
      BareKeepsProper(a);
      BareForms(a.value);
      if next.Some? {
        BareKeepsProper(next);
        BareForms(next.value);
      }
    case _ =>
  }

  /** Writing code and reading it back gives the code without type ids exactly if there are no blanks in it,
      and argument lists only where they belong. */
  lemma CodeRoundTrip(t: Link)
    requires IsCode(t)
    ensures Read(Element(CodeTag, map[], WriteCode(t))) == BareLink(t) <==> IsProper(t)
  {
    ReadCode(WriteCode(t));
    hide Read, WriteCode, IsCode, IsProper, Bare;
    if IsProper(t) {
      ProperOne(t);
    } else {
      BareKeepsProper(t);
      WrittenIsProper(t);
      CodeIsBareSome(t);
      var m := WriteCode(t);
      if m != [] {
        assert m == [m[0]];
        ReadAllOne(m[0]);
      }
    }
  }

  /** A call with a blank argument list comes back without one. */
  lemma BlankArgumentsAreLost(f: Link)
    requires IsCode(f) && IsProper(f)
    ensures Read(Element(CodeTag, map[], WriteCode(Some(FunctionCall(None, f, Some(Blank(None))))))) == Some(FunctionCall(None, BareLink(f), None))
  {
    hide Read, IsCode, IsProper, Bare;
    NothingIsWrittenForBlank();
    CodeForms(FunctionCall(None, f, Some(Blank(None))));
    ProperOne(f);
    var ns := WriteCode(f);
    hide WriteCode;
    assert ns + [] == ns;
    ReadOneChild(ns, f.value);
    ReadAllOne(Element(FuncCallTag, map[], ns));
    ReadCode([Element(FuncCallTag, map[], ns)]);
  }

  lemma NothingIsWrittenForBlank()
    ensures WriteCode(Some(Blank(None))) == []
  {
  }

  lemma ReadOneChild(ns: seq<Node>, f: Tree)
    requires ReadAll(ns) == [Some(Bare(f))]
    ensures Read(Element(FuncCallTag, map[], ns)) == Some(FunctionCall(None, Some(Bare(f)), None))
  {
    hide ReadAll, Bare;
    assert [Some(Bare(f))][1..] == [];
  }

  lemma CodeIsBareSome(t: Link)
    requires IsCode(t)
    ensures BareLink(t).Some?
  {
  }

  lemma ReadCode(ns: seq<Node>)
    ensures Read(Element(CodeTag, map[], ns)) == FirstOf(ReadAll(ns))
  {
    hide ReadAll, FirstOf;
  }

  // ---- Functions -----------------------------------------------------------------------------------

  /** A function with proper code is read back with its parameters and its code; its type is left out. */
  lemma FunctionRoundTrip(name: string, typeSpec: Link, parameters: Link, code: Link, ids: TypeIds, extra: Attributes)
    requires IsParameters(KeptParameters(parameters)) && IsCode(code) && IsProper(code)
    ensures Read(WriteFunction(name, typeSpec, parameters, code, ids, extra)) ==
      Some(FunctionDef(None, name, None, KeptParameters(parameters), BareLink(code)))
  {
    hide WriteType, WriteCode, IsCode, IsProper, Bare;
    ParameterListRoundTrip(parameters);
    CodeRoundTrip(code);
    var ns := WriteFunction(name, typeSpec, parameters, code, ids, extra).children;
    assert ns[1..] == [ns[1], ns[2]] && ns[1..][1..] == [ns[2]] && ns[1..][1..][1..] == [];
    hide WriteParameters;
    TaggedThree(ns, ParameterListTag);
    TaggedThree(ns, CodeTag);
  }

  lemma TaggedThree(ns: seq<Node>, tag: Tag)
    requires |ns| == 3 && ns[0].Element? && ns[1].Element? && ns[2].Element? && ns[0].tag != tag
    ensures ReadTagged(ns, tag, None) == if ns[2].tag == tag then Read(ns[2]) else if ns[1].tag == tag then Read(ns[1]) else None
  {
    hide Read;
    var two, one := ns[1..], ns[1..][1..];
    assert two[0] == ns[1] && one[0] == ns[2] && one[1..] == [];
    var found := if ns[1].tag == tag then Read(ns[1]) else None;
    assert ReadTagged(ns, tag, None) == ReadTagged(two, tag, None);
    assert ReadTagged(two, tag, None) == ReadTagged(one, tag, found);
    assert ReadTagged(one, tag, found) == ReadTagged([], tag, if ns[2].tag == tag then Read(ns[2]) else found);
  }

  // ---- Documents of functions and types ------------------------------------------------------------

  predicate AllElements(ns: seq<Node>) {
    forall n :: n in ns ==> n.Element?
  }

  lemma {:induction false} ReadAllAt(ns: seq<Node>)
    requires AllElements(ns)
    ensures |ReadAll(ns)| == |ns| && forall i :: 0 <= i < |ns| ==> ReadAll(ns)[i] == Read(ns[i])
  {
    hide Read;
    if ns != [] {
      assert ns[0] in ns && forall n :: n in ns[1..] ==> n in ns;
      ReadAllAt(ns[1..]);
    }
  }

  /** A type element keeps its name, and what is written for a type in it becomes its definition; a type_spec
      element is read as that type alone. */
  lemma NamedTypeRoundTrip(name: string, t: Link, ids: TypeIds, attributes: Attributes)
    requires Solid(Kept(t, ids)) && NameAttribute in attributes && attributes[NameAttribute] == name
    ensures Read(Element(TypeTag, attributes, WriteType(t, ids))) == Some(TypeSpec(None, name, Kept(t, ids)))
    ensures Read(Element(TypeSpecTag, attributes, WriteType(t, ids))) == Kept(t, ids)
  {
    SolidRoundTrip(t, ids);
    var ns := WriteType(t, ids);
    hide WriteType, Kept, Solid;
    assert ns == [ns[0]];
    ReadAllOne(ns[0]);
    hide ReadAll;
  }

  /** What a document holds: functions, and types with names. */
  datatype Item =
    | FunctionItem(name: string, typeSpec: Link, parameters: Link, code: Link, extra: Attributes)
    | TypeItem(name: string, def: Link)

  predicate ProperItem(i: Item, ids: TypeIds) {
    match i
    case FunctionItem(_, _, parameters, code, _) => IsParameters(KeptParameters(parameters)) && IsCode(code) && IsProper(code)
    case TypeItem(_, def) => Solid(Kept(def, ids))
  }

  function WriteItem(i: Item, ids: TypeIds): Node {
    match i
    case FunctionItem(name, typeSpec, parameters, code, extra) => WriteFunction(name, typeSpec, parameters, code, ids, extra)
    case TypeItem(name, def) => Element(TypeTag, map[NameAttribute := name], WriteType(def, ids))
  }

  function ItemTree(i: Item, ids: TypeIds): Tree {
    match i
    case FunctionItem(name, _, parameters, code, _) => FunctionDef(None, name, None, KeptParameters(parameters), BareLink(code))
    case TypeItem(name, def) => TypeSpec(None, name, Kept(def, ids))
  }

  lemma ItemRoundTrip(i: Item, ids: TypeIds)
    requires ProperItem(i, ids)
    ensures WriteItem(i, ids).Element? && Read(WriteItem(i, ids)) == Some(ItemTree(i, ids))
  {
    hide Read, WriteType, WriteCode, Solid, IsCode, IsProper, Kept, BareLink;
    match i
    case FunctionItem(name, typeSpec, parameters, code, extra) => FunctionRoundTrip(name, typeSpec, parameters, code, ids, extra);
    case TypeItem(name, def) => NamedTypeRoundTrip(name, def, ids, map[NameAttribute := name]);
  }

  /** A document of written functions and types is read as exactly their trees, in order. */
  lemma DocumentRoundTrip(items: seq<Item>, ids: TypeIds, attributes: Attributes, ns: seq<Node>)
    requires forall i :: i in items ==> ProperItem(i, ids)
    requires |ns| == |items| && forall k :: 0 <= k < |items| ==> ns[k] == WriteItem(items[k], ids)
    ensures var t := Read(Element(MinimalTag, attributes, ns));
      && t.Some? && t.value.SequentialDefs? && t.value.typeId == None && |t.value.branches| == |items|
      && forall k :: 0 <= k < |items| ==> t.value.branches[k] == Some(ItemTree(items[k], ids))
  {
    hide ProperItem, WriteItem, ItemTree;
    forall k | 0 <= k < |items|
      ensures ns[k].Element? && Read(ns[k]) == Some(ItemTree(items[k], ids))
    {
      ItemRoundTrip(items[k], ids);
    }
    ReadAllAt(ns);
    assert Read(Element(MinimalTag, attributes, ns)) == Some(SequentialDefs(None, ReadAll(ns)));
    hide Read, ReadAll;
  }

  /** The type that is written with a function, although the reader of the function skips it. */
  lemma FunctionHasItsType(name: string, typeSpec: Link, parameters: Link, code: Link, ids: TypeIds, extra: Attributes)
    requires Solid(Kept(typeSpec, ids))
    ensures var n := WriteFunction(name, typeSpec, parameters, code, ids, extra);
      n.children != [] && n.children[0].Element? && n.children[0].tag == TypeTag && Read(n.children[0]) == Some(TypeSpec(None, name, Kept(typeSpec, ids)))
  {
    hide Read, WriteType, WriteCode, WriteParameters, Solid, Kept;
    NamedTypeRoundTrip(name, typeSpec, ids, map[NameAttribute := name]);
  }

  /** A tuple element is a product of its first trees, as many as its size says. */
  lemma TupleTakesSize(size: int, attributes: Attributes, ns: seq<Node>)
    requires AllElements(ns) && SizeAttribute in attributes && attributes[SizeAttribute] == Decimal.Write(size)
    ensures var t := Read(Element(TupleTag, attributes, ns));
      && t.Some? && t.value.ProductType? && t.value.typeId == None
      && |t.value.branches| == (if size < 0 then 0 else if size < |ns| then size else |ns|)
      && forall k :: 0 <= k < |t.value.branches| ==> t.value.branches[k] == Read(ns[k])
  {
    ReadAllAt(ns);
    Decimal.RoundTrip(size);
    hide ReadAll, Decimal.Read, Decimal.Write;
  }

  /** Where there are more children than needed: an operator, an index, a call and a let take the last for the
      last of theirs, a function type the second, code the first, and a type the last. */
  lemma SurplusChildren(tag: Tag, attributes: Attributes, a: Node, b: Node, c: Node, d: Node)
    requires a.Element? && b.Element? && c.Element? && d.Element? && Read(a).Some? && Read(b).Some? && Read(c).Some? && Read(d).Some?
    ensures var n := Element(tag, attributes, [a, b, c, d]);
      && (tag == OperatorTag ==> Read(n) == Some(Operator(None, Get(n, OpAttribute), Read(a), Read(d))))
      && (tag == IndexTag ==> Read(n) == Some(Index(None, Read(a), Read(d))))
      && (tag == FuncCallTag ==> Read(n) == Some(FunctionCall(None, Read(a), Read(d))))
      && (tag == LetTag ==> Read(n) == Some(Let(None, Read(a), Read(b), Read(d))))
      && (tag == TypeFunctionTag ==> Read(n) == Some(TypeFunction(None, [Read(a), Read(b)])))
      && (tag == CodeTag ==> Read(n) == Read(a))
      && (tag == TypeTag ==> Read(n) == Some(TypeSpec(None, Get(n, NameAttribute), Read(d))))
      && (tag == TypeSpecTag ==> Read(n) == Read(d))
  {
    var r := [Read(a), Read(b), Read(c), Read(d)];
    FourRead(a, b, c, d);
    FourParts(r);
    ReadFour(tag, attributes, [a, b, c, d], r);
    hide Read;
  }

  lemma FourRead(a: Node, b: Node, c: Node, d: Node)
    requires a.Element? && b.Element? && c.Element? && d.Element?
    ensures ReadAll([a, b, c, d]) == [Read(a), Read(b), Read(c), Read(d)]
  {
    hide Read;
    ReadAllAt([a, b, c, d]);
    hide ReadAll;
  }

  lemma ReadFour(tag: Tag, attributes: Attributes, ns: seq<Node>, r: seq<Link>)
    requires ReadAll(ns) == r && |r| == 4 && r[0].Some? && r[1].Some? && r[3].Some?
    requires FirstOf(r) == r[0] && FirstOf(AfterFirst(r)) == r[1]
    requires LastOf(r) == LastOf(AfterFirst(r)) == LastOf(AfterFirst(AfterFirst(r))) == r[3]
    ensures var n := Element(tag, attributes, ns);
      && (tag == OperatorTag ==> Read(n) == Some(Operator(None, Get(n, OpAttribute), r[0], r[3])))
      && (tag == IndexTag ==> Read(n) == Some(Index(None, r[0], r[3])))
      && (tag == FuncCallTag ==> Read(n) == Some(FunctionCall(None, r[0], r[3])))
      && (tag == LetTag ==> Read(n) == Some(Let(None, r[0], r[1], r[3])))
      && (tag == TypeFunctionTag ==> Read(n) == Some(TypeFunction(None, [r[0], r[1]])))
      && (tag == CodeTag ==> Read(n) == r[0])
      && (tag == TypeTag ==> Read(n) == Some(TypeSpec(None, Get(n, NameAttribute), r[3])))
      && (tag == TypeSpecTag ==> Read(n) == r[3])
  {
    hide ReadAll, FirstOf, AfterFirst, LastOf, ReadParameters, ReadTagged, Decimal.Read, AppendArguments;
  }

  lemma FourParts(r: seq<Link>)
    requires |r| == 4 && r[0].Some? && r[1].Some?
    ensures FirstOf(r) == r[0] && FirstOf(AfterFirst(r)) == r[1]
    ensures LastOf(r) == LastOf(AfterFirst(r)) == LastOf(AfterFirst(AfterFirst(r))) == r[3]
  {
    assert AfterFirst(r) == r[1..] && AfterFirst(r[1..]) == r[1..][1..];
  }

  // ---- Text between elements -----------------------------------------------------------------------

  /** The document without text, such as the blanks that indent it. */
  function WithoutText(n: Node): Node {
    match n
    case TextNode(_) => n
    case Element(tag, attributes, children) => Element(tag, attributes, ElementsOf(children))
  }

  function ElementsOf(ns: seq<Node>): seq<Node> {
    if ns == [] then [] else (if ns[0].Element? then [WithoutText(ns[0])] else []) + ElementsOf(ns[1..])
  }

  /** Text between elements does not change what is read. */
  lemma {:induction false} TextIsIgnored(n: Node)
    ensures Read(WithoutText(n)) == Read(n)
    decreases n, 1
  {
    match n
    case TextNode(_) =>
    case Element(tag, attributes, children) =>
      TextIsIgnoredAll(children);
      TextIsNoParameter(children, None);
      TextIsNotTagged(children, ParameterListTag, None);
      TextIsNotTagged(children, CodeTag, None);
      SameRead(n, ElementsOf(children));
  }

  lemma SameRead(n: Node, ns: seq<Node>)
    requires n.Element? && ReadAll(ns) == ReadAll(n.children) && ReadParameters(ns, None) == ReadParameters(n.children, None)
    requires ReadTagged(ns, ParameterListTag, None) == ReadTagged(n.children, ParameterListTag, None)
    requires ReadTagged(ns, CodeTag, None) == ReadTagged(n.children, CodeTag, None)
    ensures Read(Element(n.tag, n.attributes, ns)) == Read(n)
  {
    hide ReadAll, ReadParameters, ReadTagged, FirstOf, AfterFirst, LastOf, Decimal.Read, ArgumentList1, ArgumentList2;
  }

  lemma ElementsStep(ns: seq<Node>)
    requires ns != []
    ensures ns[0].TextNode? ==> ElementsOf(ns) == ElementsOf(ns[1..])
    ensures ns[0].Element? ==> ElementsOf(ns) != [] && ElementsOf(ns)[0] == WithoutText(ns[0]) && ElementsOf(ns)[1..] == ElementsOf(ns[1..])
  {
    hide WithoutText;
    assert [] + ElementsOf(ns[1..]) == ElementsOf(ns[1..]);
  }

  lemma StaysElement(n: Node)
    requires n.Element?
    ensures WithoutText(n).Element? && WithoutText(n).tag == n.tag && WithoutText(n).attributes == n.attributes
  {
    hide ElementsOf;
  }

  lemma {:induction false} TextIsIgnoredAll(ns: seq<Node>)
    ensures ReadAll(ElementsOf(ns)) == ReadAll(ns)
    decreases ns, 0
  {
    hide Read, WithoutText, ElementsOf;
    if ns != [] {
      ElementsStep(ns);
      TextIsIgnoredAll(ns[1..]);
      if ns[0].Element? {
        StaysElement(ns[0]);
        TextIsIgnored(ns[0]);
      }
    } else {
      NoElements();
    }
  }

  lemma NoElements()
    ensures ElementsOf([]) == []
  {
  }

  lemma {:induction false} TextIsNoParameter(ns: seq<Node>, list: Link)
    ensures ReadParameters(ElementsOf(ns), list) == ReadParameters(ns, list)
    decreases ns, 0
  {
    hide WithoutText, ElementsOf, AppendParameter;
    if ns != [] {
      ElementsStep(ns);
      if ns[0].Element? {
        StaysElement(ns[0]);
        TextIsNoParameter(ns[1..], if ns[0].tag == ParamTag && NameAttribute in ns[0].attributes then AppendParameter(list, ns[0].attributes[NameAttribute]) else list);
      } else {
        TextIsNoParameter(ns[1..], list);
      }
    } else {
      NoElements();
    }
  }

  lemma {:induction false} TextIsNotTagged(ns: seq<Node>, tag: Tag, found: Link)
    ensures ReadTagged(ElementsOf(ns), tag, found) == ReadTagged(ns, tag, found)
    decreases ns, 0
  {
    hide Read, WithoutText, ElementsOf;
    if ns != [] {
      ElementsStep(ns);
      if ns[0].Element? {
        StaysElement(ns[0]);
        TextIsIgnored(ns[0]);
        TextIsNotTagged(ns[1..], tag, if ns[0].tag == tag then Read(ns[0]) else found);
      } else {
        TextIsNotTagged(ns[1..], tag, found);
      }
    } else {
      NoElements();
    }
  }

  // ---- The functions as they are written -----------------------------------------------------------

  lemma {:induction false} WriteTypesAppend(bs: seq<Link>, b: Link, ids: TypeIds)
    ensures WriteTypes(bs + [b], ids) == WriteTypes(bs, ids) + WriteType(b, ids)
  {
    hide WriteType;
    if bs == [] {
      assert [b][1..] == [];
      assert WriteTypes([b], ids) == WriteType(b, ids) + [];
    } else {
      assert (bs + [b])[0] == bs[0] && (bs + [b])[1..] == bs[1..] + [b];
      WriteTypesAppend(bs[1..], b, ids);
    }
  }

  method SerialiseTypeSpec(t: Link, ids: TypeIds) returns (ns: seq<Node>)
    ensures ns == WriteType(t, ids)
    decreases t, 1
  {
    hide WriteTypes;
    if t.None? {
      return [];
    }
    var k := t.value;
    match k
    case Nil(_) => return [Element(NilTag, map[], [])];
    case Identifier(id, name) => return [Element(IdTag, IdAttributes(id, name, ids), [])];
    case TypeSpec(_, _, def) => ns := SerialiseTypeSpec(def, ids);
    case TypeFunction(_, bs) =>
      var cs := SerialiseBranches(bs, ids);
      return [Element(TypeFunctionTag, map[], cs)];
    case ProductType(_, bs) =>
      var cs := SerialiseBranches(bs, ids);
      return [Element(ProductTypeTag, map[], cs)];
    case SumType(_, bs) =>
      var cs := SerialiseBranches(bs, ids);
      return [Element(SumTypeTag, map[], cs)];
    case Pointer(_, name) => return [Element(PtrTag, map[NameAttribute := name], [])];
    case Bracket(_, def) => ns := SerialiseTypeSpec(def, ids);
    case ParameterList(_, _, _) =>
      var n := SerialiseParameterList(t);
      return [n];
    case _ => return [];
  }

  method SerialiseBranches(bs: seq<Link>, ids: TypeIds) returns (ns: seq<Node>)
    ensures ns == WriteTypes(bs, ids)
    decreases bs, 0
  {
    hide WriteType;
    ns := [];
    var i := 0;
    while i < |bs|
      invariant 0 <= i <= |bs| && ns == WriteTypes(bs[..i], ids)
    {
      var more := SerialiseTypeSpec(bs[i], ids);
      WriteTypesAppend(bs[..i], bs[i], ids);
      assert bs[..i + 1] == bs[..i] + [bs[i]];
      ns := ns + more;
      i := i + 1;
    }
    assert bs[..i] == bs;
  }

  method SerialiseParameterList(t: Link) returns (n: Node)
    ensures n == WriteParameters(t)
  {
    var ps: seq<Node> := [];
    var list := t;
    while list.Some? && list.value.ParameterList?
      invariant ParameterNodes(t) == ps + ParameterNodes(list)
      decreases list
    {
      ps := ps + [Element(ParamTag, map[NameAttribute := list.value.name], [])];
      list := list.value.next;
    }
    assert ps + [] == ps;
    return Element(ParameterListTag, map[], ps);
  }

  // The reader's walks over siblings.

  lemma ReadAllNext(ns: seq<Node>, i: nat)
    requires i < |ns|
    ensures ReadAll(ns[..i + 1]) == ReadAll(ns[..i]) + if ns[i].Element? then [Read(ns[i])] else []
  {
    hide Read;
    assert ns[..i + 1] == ns[..i] + [ns[i]];
    ReadAllJoin(ns[..i], [ns[i]]);
    assert [ns[i]][1..] == [];
    assert ReadAll([ns[i]]) == if ns[i].Element? then [Read(ns[i])] else [];
  }

  lemma {:induction false} PickNext(r: seq<Link>, l: Link)
    ensures FirstOf(r + [l]) == if FirstOf(r).Some? then FirstOf(r) else l
    ensures AfterFirst(r + [l]) == if FirstOf(r).Some? then AfterFirst(r) + [l] else []
    ensures LastOf(r + [l]) == l
  {
    if r == [] {
      assert [l][1..] == [];
    } else {
      assert (r + [l])[0] == r[0] && (r + [l])[1..] == r[1..] + [l];
      PickNext(r[1..], l);
    }
  }

  lemma {:induction false} NothingAfter(r: seq<Link>)
    ensures FirstOf(r).None? ==> AfterFirst(r) == []
  {
    if r != [] {
      NothingAfter(r[1..]);
    }
  }

  lemma AppendNothing<T>(s: seq<T>)
    ensures s + [] == s
  {
  }

  method ReadChildren(ns: seq<Node>) returns (r: seq<Link>)
    ensures r == ReadAll(ns)
    decreases ns, 0
  {
    hide Read;
    r := [];
    var i := 0;
    while i < |ns|
      invariant 0 <= i <= |ns| && r == ReadAll(ns[..i])
    {
      ReadAllNext(ns, i);
      if ns[i].Element? {
        var t := XmlToSyntaxTree(ns[i]);
        r := r + [t];
      }
      i := i + 1;
    }
    assert ns[..i] == ns;
  }

  /** The first tree, and the last of those after it. */
  method ReadFirstAndLast(ns: seq<Node>) returns (first: Link, last: Link)
    ensures first == FirstOf(ReadAll(ns)) && last == LastOf(AfterFirst(ReadAll(ns)))
    decreases ns, 0
  {
    hide Read;
    first, last := None, None;
    var i := 0;
    while i < |ns|
      invariant 0 <= i <= |ns|
      invariant first == FirstOf(ReadAll(ns[..i])) && last == LastOf(AfterFirst(ReadAll(ns[..i])))
    {
      hide ReadAll, FirstOf, AfterFirst;
      var r := ReadAll(ns[..i]);
      ReadAllNext(ns, i);
      AppendNothing(r);
      NothingAfter(r);
      if ns[i].Element? {
        var t := XmlToSyntaxTree(ns[i]);
        PickNext(r, t);
        if first.None? {
          first := t;
        } else {
          last := t;
        }
      }
      i := i + 1;
    }
    assert ns[..i] == ns;
  }

  /** The first two trees. */
  method ReadFirstTwo(ns: seq<Node>) returns (first: Link, second: Link)
    ensures first == FirstOf(ReadAll(ns)) && second == FirstOf(AfterFirst(ReadAll(ns)))
    decreases ns, 0
  {
    hide Read;
    first, second := None, None;
    var i := 0;
    while i < |ns|
      invariant 0 <= i <= |ns|
      invariant first == FirstOf(ReadAll(ns[..i])) && second == FirstOf(AfterFirst(ReadAll(ns[..i])))
    {
      hide ReadAll, FirstOf, AfterFirst;
      var r := ReadAll(ns[..i]);
      ReadAllNext(ns, i);
      AppendNothing(r);
      NothingAfter(r);
      NothingFirst();
      if ns[i].Element? && first.None? {
        first := XmlToSyntaxTree(ns[i]);
        PickNext(r, first);
      } else if ns[i].Element? {
        var t := XmlToSyntaxTree(ns[i]);
        PickNext(r, t);
        PickNext(AfterFirst(r), t);
        if second.None? {
          second := t;
        }
      }
      i := i + 1;
    }
    assert ns[..i] == ns;
  }

  lemma NothingFirst()
    ensures FirstOf([]) == None && LastOf([]) == None
  {
  }

  /** The variable, the expression and the code of a let. */
  method ReadLetParts(ns: seq<Node>) returns (v: Link, e: Link, c: Link)
    ensures var r := ReadAll(ns); v == FirstOf(r) && e == FirstOf(AfterFirst(r)) && c == LastOf(AfterFirst(AfterFirst(r)))
    decreases ns, 0
  {
    hide Read;
    v, e, c := None, None, None;
    var i := 0;
    while i < |ns|
      invariant 0 <= i <= |ns|
      invariant var r := ReadAll(ns[..i]); v == FirstOf(r) && e == FirstOf(AfterFirst(r)) && c == LastOf(AfterFirst(AfterFirst(r)))
    {
      hide ReadAll, FirstOf, AfterFirst;
      var r := ReadAll(ns[..i]);
      ReadAllNext(ns, i);
      AppendNothing(r);
      NothingAfter(r);
      NothingAfter(AfterFirst(r));
      NothingAfter([]);
      NothingFirst();
      if ns[i].Element? {
        var t := XmlToSyntaxTree(ns[i]);
        PickNext(r, t);
        PickNext(AfterFirst(r), t);
        if v.None? {
          v := t;
        } else if e.None? {
          e := t;
        } else {
          c := t;
        }
      }
      i := i + 1;
    }
    assert ns[..i] == ns;
  }

  method ReadParameterNodes(ns: seq<Node>) returns (list: Link)
    ensures list == ReadParameters(ns, None)
  {
    list := None;
    var i := 0;
    while i < |ns|
      invariant 0 <= i <= |ns| && ReadParameters(ns, None) == ReadParameters(ns[i..], list)
    {
      assert ns[i..][1..] == ns[i + 1..];
      if ns[i].Element? && ns[i].tag == ParamTag && NameAttribute in ns[i].attributes {
        list := AppendParameter(list, ns[i].attributes[NameAttribute]);
      }
      i := i + 1;
    }
    assert ns[i..] == [];
  }

  method ReadFunctionParts(ns: seq<Node>) returns (parameters: Link, code: Link)
    ensures parameters == ReadTagged(ns, ParameterListTag, None) && code == ReadTagged(ns, CodeTag, None)
    decreases ns, 0
  {
    hide Read;
    parameters, code := None, None;
    var i := 0;
    while i < |ns|
      invariant 0 <= i <= |ns|
      invariant ReadTagged(ns, ParameterListTag, None) == ReadTagged(ns[i..], ParameterListTag, parameters)
      invariant ReadTagged(ns, CodeTag, None) == ReadTagged(ns[i..], CodeTag, code)
    {
      assert ns[i..][1..] == ns[i + 1..];
      if ns[i].Element? {
        if ns[i].tag == ParameterListTag {
          parameters := XmlToSyntaxTree(ns[i]);
        } else if ns[i].tag == CodeTag {
          code := XmlToSyntaxTree(ns[i]);
        }
      }
      i := i + 1;
    }
    assert ns[i..] == [];
  }

  method XmlToSyntaxTree(n: Node) returns (t: Link)
    requires n.Element?
    ensures t == Read(n)
    decreases n, 1
  {
    hide ReadAll, FirstOf, AfterFirst, LastOf, ReadParameters, ReadTagged, Decimal.Read;
    match n.tag
    case FunctionTag =>
      var parameters, code := ReadFunctionParts(n.children);
      return Some(FunctionDef(None, Get(n, NameAttribute), None, parameters, code));
    case TypeFunctionTag =>
      var arg, value := ReadFirstTwo(n.children);
      return Some(TypeFunction(None, [arg, value]));
    case NilTag => return Some(Nil(None));
    case IdTag =>
      var id: Option<string> := None;
      if TypeIdAttribute in n.attributes {
        id := Some(n.attributes[TypeIdAttribute]);
      }
      return Some(Identifier(id, Get(n, NameAttribute)));
    case IntegerTag => return Some(Integer(None, Decimal.Read(Get(n, ValAttribute))));
    case StringTag => return Some(Str(None, Get(n, ValAttribute)));
    case PtrTag => return Some(Pointer(None, Get(n, NameAttribute)));
    case ParameterListTag => t := ReadParameterNodes(n.children);
    case OperatorTag =>
      var op1, op2 := ReadFirstAndLast(n.children);
      return Some(Operator(None, Get(n, OpAttribute), op1, op2));
    case IndexTag =>
      var op, index := ReadFirstAndLast(n.children);
      return Some(Index(None, op, index));
    case LetTag =>
      var v, e, c := ReadLetParts(n.children);
      return Some(Let(None, v, e, c));
    case FuncCallTag =>
      var func, args := ReadFirstAndLast(n.children);
      return Some(FunctionCall(None, func, args));
    case ArgumentListTag =>
      var arg, next := ReadFirstAndLast(n.children);
      return Some(if next.None? then ArgumentList1(arg) else ArgumentList2(arg, next));
    case _ =>
      var r := ReadChildren(n.children);
      t := ReadFromAll(n, r);
  }

  /** The elements that keep all of their children's trees, or the first or the last of them. */
  method ReadFromAll(n: Node, r: seq<Link>) returns (t: Link)
    requires n.Element? && r == ReadAll(n.children)
    requires n.tag in {MinimalTag, ProductTypeTag, SumTypeTag, TypeTag, TypeSpecTag, CodeTag, TupleTag, ParamTag} || n.tag.OtherTag?
    ensures t == Read(n)
  {
    hide ReadAll, FirstOf, LastOf, Decimal.Read;
    match n.tag
    case MinimalTag => return Some(SequentialDefs(None, r));
    case ProductTypeTag => return Some(ProductType(None, r));
    case SumTypeTag => return Some(SumType(None, r));
    case TypeTag => return Some(TypeSpec(None, Get(n, NameAttribute), LastOf(r)));
    case TypeSpecTag => return LastOf(r);
    case CodeTag => return FirstOf(r);
    case TupleTag =>
      var size := Decimal.Read(Get(n, SizeAttribute));
      return Some(ProductType(None, if size <= 0 then [] else if size < |r| then r[..size] else r));
    case _ => return None;
  }
}
