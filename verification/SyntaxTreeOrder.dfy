/** The comparison of syntax trees (Minimal_SyntaxTree_cmp in minimal/src/syntax_tree.c) as an order. Only
    the sign of a result counts, so results are -1, 0 and 1. */
module SyntaxTreeOrder {
  import opened Options
  import opened SyntaxTrees

  function CompareInts(a: int, b: int): int {
    if a < b then -1 else if a > b then 1 else 0
  }

  /** strcmp. */
  function CompareStrings(a: string, b: string): int {
    if a == [] then (if b == [] then 0 else -1)
    else if b == [] then 1
    else if a[0] < b[0] then -1
    else if a[0] > b[0] then 1
    else CompareStrings(a[1..], b[1..])
  }

  function First(x: int, y: int): int {
    if x != 0 then x else y
  }

  /** The place of a node's type in the enumeration. */
  function Kind(t: Tree): nat {
    match t
    case Blank(_) => 0
    case Nil(_) => 1
    case Identifier(_, _) => 2
    case Integer(_, _) => 3
    case Str(_, _) => 4
    case SequentialDefs(_, _) => 5
    case TypeSpec(_, _, _) => 6
    case TypeFunction(_, _) => 7
    case FunctionDef(_, _, _, _, _) => 8
    case ParameterList(_, _, _) => 9
    case FunctionCall(_, _, _) => 10
    case ArgumentList(_, _, _) => 11
    case Operator(_, _, _, _) => 12
    case ProductType(_, _) => 13
    case SumType(_, _) => 14
    case TupleOf(_, _) => 15
    case Pointer(_, _) => 16
    case IfExpr(_, _, _, _) => 17
    case Bracket(_, _) => 18
    case Index(_, _, _) => 19
    case Let(_, _, _, _) => 20
  }

  // ---- The comparison as it is written -------------------------------------------------------------

  function CompareLinks(a: Link, b: Link): int
    decreases a, 1
  {
    if a.None? && b.None? then 0
    else if a.None? then -1
    else if b.None? then 1
    else if Kind(a.value) < Kind(b.value) then -1
    else if Kind(a.value) > Kind(b.value) then 1
    else CompareSameKind(a.value, b.value)
  }

  /** The tail of a parameter or argument list; the second test of the original repeats the first. */
  function CompareTails(a: Link, b: Link): int
    decreases a, 2
  {
    if a.None? && b.None? then 0
    else if a.None? then -1
    else if a.None? then 1
    else CompareLinks(a, b)
  }

  function CompareBranches(a: seq<Link>, b: seq<Link>): int
    requires |a| == |b|
    decreases a, 0
  {
    if a == [] then 0 else
      var c := CompareLinks(a[0], b[0]);
      if c != 0 then c else CompareBranches(a[1..], b[1..])
  }

  function CompareTrees(a: Tree, b: Tree): int
    decreases a, 1
  {
    if Kind(a) < Kind(b) then -1 else if Kind(a) > Kind(b) then 1 else CompareSameKind(a, b)
  }

  function CompareLists(a: seq<Link>, b: seq<Link>): int
    decreases a, 1
  {
    if |a| < |b| then -1 else if |a| > |b| then 1 else CompareBranches(a, b)
  }

  function CompareSameKind(a: Tree, b: Tree): int
    requires Kind(a) == Kind(b)
    decreases a, 0
  {
    match a
    case Blank(_) => 0
    case Nil(_) => 0
    case Identifier(_, n) => CompareStrings(n, b.name)
    case Integer(_, v) => CompareInts(v, b.value)
    case Str(_, s) => CompareStrings(s, b.text)
    case SequentialDefs(_, bs) => CompareLists(bs, b.branches)
    case TypeSpec(_, n, d) => if CompareStrings(n, b.name) != 0 then CompareStrings(n, b.name) else CompareLinks(d, b.def)
    case TypeFunction(_, bs) => CompareLists(bs, b.branches)
    case FunctionDef(_, n, _, ps, body) =>
      if CompareStrings(n, b.name) != 0 then CompareStrings(n, b.name)
      else if CompareLinks(ps, b.parameters) != 0 then CompareLinks(ps, b.parameters)
      else CompareLinks(body, b.body)
    case ParameterList(_, n, next) => if CompareStrings(n, b.name) != 0 then CompareStrings(n, b.name) else CompareTails(next, b.next)
    case FunctionCall(_, f, args) =>
      if CompareLinks(f, b.function') != 0 then CompareLinks(f, b.function') else CompareLinks(args, b.arguments)
    case ArgumentList(_, arg, next) =>
      if CompareLinks(arg, b.argument) != 0 then CompareLinks(arg, b.argument) else CompareTails(next, b.next)
    case Operator(_, o, op1, op2) =>
      if CompareStrings(o, b.operator) != 0 then CompareStrings(o, b.operator)
      else if CompareLinks(op1, b.op1) != 0 then CompareLinks(op1, b.op1)
      else CompareLinks(op2, b.op2)
    case ProductType(_, bs) => CompareLists(bs, b.branches)
    case SumType(_, bs) => CompareLists(bs, b.branches)
    case TupleOf(_, bs) => CompareLists(bs, b.branches)
    case Pointer(_, n) => CompareStrings(n, b.name)
    case IfExpr(_, i, t, e) =>
      if CompareLinks(i, b.if') != 0 then CompareLinks(i, b.if')
      else if CompareLinks(t, b.then') != 0 then CompareLinks(t, b.then')
      else CompareLinks(e, b.else')
    case Bracket(_, d) => CompareLinks(d, b.def)
    case Index(_, e, i) => if CompareLinks(e, b.expr) != 0 then CompareLinks(e, b.expr) else CompareLinks(i, b.index)
    case Let(_, v, e, c) =>
      if CompareLinks(v, b.var') != 0 then
        if CompareLinks(e, b.letExpr) != 0 then CompareLinks(c, b.code) else CompareLinks(e, b.letExpr)
      else CompareLinks(v, b.var')
  }

  // ---- One form for all kinds but let --------------------------------------------------------------

  function Text(t: Tree): string {
    match t
    case Identifier(_, n) => n
    case Str(_, s) => s
    case TypeSpec(_, n, _) => n
    case FunctionDef(_, n, _, _, _) => n
    case ParameterList(_, n, _) => n
    case Operator(_, o, _, _) => o
    case Pointer(_, n) => n
    case _ => ""
  }

  function Number(t: Tree): int {
    if t.Integer? then t.value else 0
  }

  /** The children that are compared, in order. */
  function Children(t: Tree): seq<Link> {
    match t
    case SequentialDefs(_, bs) => bs
    case TypeSpec(_, _, d) => [d]
    case TypeFunction(_, bs) => bs
    case FunctionDef(_, _, _, ps, b) => [ps, b]
    case ParameterList(_, _, n) => [n]
    case FunctionCall(_, f, a) => [f, a]
    case ArgumentList(_, a, n) => [a, n]
    case Operator(_, _, a, b) => [a, b]
    case ProductType(_, bs) => bs
    case SumType(_, bs) => bs
    case TupleOf(_, bs) => bs
    case IfExpr(_, i, t, e) => [i, t, e]
    case Bracket(_, d) => [d]
    case Index(_, e, i) => [e, i]
    case Let(_, v, e, c) => [v, e, c]
    case _ => []
  }

  function Size(t: Tree): nat {
    match t
    case SequentialDefs(_, bs) => 1 + LinksSize(bs)
    case TypeSpec(_, _, d) => 1 + LinkSize(d)
    case TypeFunction(_, bs) => 1 + LinksSize(bs)
    case FunctionDef(_, _, _, ps, b) => 1 + LinkSize(ps) + LinkSize(b)
    case ParameterList(_, _, n) => 1 + LinkSize(n)
    case FunctionCall(_, f, a) => 1 + LinkSize(f) + LinkSize(a)
    case ArgumentList(_, a, n) => 1 + LinkSize(a) + LinkSize(n)
    case Operator(_, _, a, b) => 1 + LinkSize(a) + LinkSize(b)
    case ProductType(_, bs) => 1 + LinksSize(bs)
    case SumType(_, bs) => 1 + LinksSize(bs)
    case TupleOf(_, bs) => 1 + LinksSize(bs)
    case IfExpr(_, i, t, e) => 1 + LinkSize(i) + LinkSize(t) + LinkSize(e)
    case Bracket(_, d) => 1 + LinkSize(d)
    case Index(_, e, i) => 1 + LinkSize(e) + LinkSize(i)
    case Let(_, v, e, c) => 1 + LinkSize(v) + LinkSize(e) + LinkSize(c)
    case _ => 1
  }

  function LinkSize(l: Link): nat {
    if l.None? then 0 else Size(l.value)
  }

  function LinksSize(ls: seq<Link>): nat {
    if ls == [] then 0 else LinkSize(ls[0]) + LinksSize(ls[1..])
  }

  lemma ChildrenAreSmaller(t: Tree)
    ensures LinksSize(Children(t)) < Size(t)
  {
    hide LinksSize, LinkSize;
    match t
    case SequentialDefs(_, bs) =>
    case TypeFunction(_, bs) =>
    case ProductType(_, bs) =>
    case SumType(_, bs) =>
    case TupleOf(_, bs) =>
    case TypeSpec(_, _, d) => SizeOfFew(d, None, None);
    case FunctionDef(_, _, _, ps, b) => SizeOfFew(ps, b, None);
    case ParameterList(_, _, n) => SizeOfFew(n, None, None);
    case FunctionCall(_, f, a) => SizeOfFew(f, a, None);
    case ArgumentList(_, a, n) => SizeOfFew(a, n, None);
    case Operator(_, _, a, b) => SizeOfFew(a, b, None);
    case IfExpr(_, i, t, e) => SizeOfFew(i, t, e);
    case Bracket(_, d) => SizeOfFew(d, None, None);
    case Index(_, e, i) => SizeOfFew(e, i, None);
    case Let(_, v, e, c) => SizeOfFew(v, e, c);
    case _ => SizeOfNone();
  }

  lemma SizeOfNone()
    ensures LinksSize([]) == 0
  {
  }

  lemma SizeOfFew(a: Link, b: Link, c: Link)
    ensures LinksSize([a]) == LinkSize(a)
    ensures LinksSize([a, b]) == LinkSize(a) + LinkSize(b)
    ensures LinksSize([a, b, c]) == LinkSize(a) + LinkSize(b) + LinkSize(c)
  {
    hide LinkSize;
    assert [a][1..] == [] && [b][1..] == [] && [c][1..] == [];
    assert [a, b][1..] == [b] && [b, c][1..] == [c] && [a, b, c][1..] == [b, c];
    assert LinksSize([b, c]) == LinkSize(b) + LinksSize([c]);
    assert LinksSize([a, b, c]) == LinkSize(a) + LinksSize([b, c]);
  }

  /** No let-expression in the tree. */
  predicate LetFree(t: Tree)
    decreases Size(t), 0
  {
    ChildrenAreSmaller(t);
    !t.Let? && AllLetFree(Children(t))
  }

  predicate AllLetFree(ls: seq<Link>)
    decreases LinksSize(ls), |ls| + 1
  {
    ls == [] ||
      assert LinksSize(ls) == LinkSize(ls[0]) + LinksSize(ls[1..]);
      ((ls[0].Some? ==> LetFree(ls[0].value)) && AllLetFree(ls[1..]))
  }

  /** Kind, text, number, number of children, and then the children one by one. */
  function General(a: Tree, b: Tree): int
    decreases Size(a), 0
  {
    ChildrenAreSmaller(a);
    First(CompareInts(Kind(a), Kind(b)),
    First(CompareStrings(Text(a), Text(b)),
    First(CompareInts(Number(a), Number(b)),
    First(CompareInts(|Children(a)|, |Children(b)|), GeneralAll(Children(a), Children(b))))))
  }

  function GeneralLinks(a: Link, b: Link): int
    decreases LinkSize(a), 1
  {
    if a.None? && b.None? then 0
    else if a.None? then -1
    else if b.None? then 1
    else General(a.value, b.value)
  }

  function GeneralAll(as': seq<Link>, bs: seq<Link>): int
    decreases LinksSize(as'), |as'| + 1
  {
    if as' == [] || bs == [] then 0 else
      First(GeneralLinks(as'[0], bs[0]), GeneralAll(as'[1..], bs[1..]))
  }

  lemma SameStringsAreZero(a: string)
    ensures CompareStrings(a, a) == 0
  {
  }

  lemma GeneralOfOne(a: Link, d: Link)
    ensures GeneralAll([a], [d]) == GeneralLinks(a, d)
  {
    hide GeneralLinks;
    assert [a][1..] == [];
  }

  lemma GeneralOfMore(a: Link, d: Link, rest: seq<Link>, rest': seq<Link>)
    ensures GeneralAll([a] + rest, [d] + rest') == First(GeneralLinks(a, d), GeneralAll(rest, rest'))
  {
    hide GeneralLinks;
    assert ([a] + rest)[1..] == rest && ([d] + rest')[1..] == rest';
  }

  lemma GeneralOfFew(a: Link, b: Link, c: Link, d: Link, e: Link, f: Link)
    ensures GeneralAll([a], [d]) == GeneralLinks(a, d)
    ensures GeneralAll([a, b], [d, e]) == First(GeneralLinks(a, d), GeneralLinks(b, e))
    ensures GeneralAll([a, b, c], [d, e, f]) == First(GeneralLinks(a, d), First(GeneralLinks(b, e), GeneralLinks(c, f)))
  {
    hide GeneralLinks, GeneralAll;
    GeneralOfOne(a, d);
    GeneralOfOne(b, e);
    GeneralOfOne(c, f);
    GeneralOfMore(a, d, [b], [e]);
    GeneralOfMore(b, e, [c], [f]);
    GeneralOfMore(a, d, [b, c], [e, f]);
    assert [a] + [b] == [a, b] && [d] + [e] == [d, e] && [b] + [c] == [b, c] && [e] + [f] == [e, f];
    assert [a] + [b, c] == [a, b, c] && [d] + [e, f] == [d, e, f];
  }

  lemma LetFreeFew(a: Link, b: Link, c: Link)
    ensures AllLetFree([a]) <==> (a.Some? ==> LetFree(a.value))
    ensures AllLetFree([a, b]) <==> AllLetFree([a]) && AllLetFree([b])
    ensures AllLetFree([a, b, c]) <==> AllLetFree([a]) && AllLetFree([b]) && AllLetFree([c])
  {
    hide LetFree;
    assert [a][1..] == [] && [b][1..] == [] && [c][1..] == [];
    assert [a, b][1..] == [b] && [b, c][1..] == [c] && [a, b, c][1..] == [b, c];
    assert AllLetFree([b, c]) <==> (b.Some? ==> LetFree(b.value)) && AllLetFree([c]);
    assert AllLetFree([a, b, c]) <==> (a.Some? ==> LetFree(a.value)) && AllLetFree([b, c]);
  }

  // ---- On let-free trees the two are the same ------------------------------------------------------

  lemma {:induction false} LinksAreGeneral(a: Link, b: Link)
    requires AllLetFree([a])
    ensures CompareLinks(a, b) == GeneralLinks(a, b) == CompareTails(a, b)
    decreases LinkSize(a), 3
  {
    hide General, CompareSameKind;
    LetFreeFew(a, a, a);
    if a.Some? && b.Some? {
      TreesAreGeneral(a.value, b.value);
    }
  }

  lemma {:induction false} BranchesAreGeneral(a: seq<Link>, b: seq<Link>)
    requires |a| == |b| && AllLetFree(a)
    ensures CompareBranches(a, b) == GeneralAll(a, b)
    decreases LinksSize(a), |a| + 4
  {
    if a != [] {
      hide CompareLinks, GeneralLinks;
      LetFreeFew(a[0], None, None);
      LinksAreGeneral(a[0], b[0]);
      BranchesAreGeneral(a[1..], b[1..]);
    }
  }

  lemma {:induction false} ListsAreGeneral(a: seq<Link>, b: seq<Link>)
    requires AllLetFree(a)
    ensures CompareLists(a, b) == First(CompareInts(|a|, |b|), GeneralAll(a, b))
    decreases LinksSize(a), |a| + 5
  {
    hide CompareBranches, GeneralAll, AllLetFree;
    if |a| == |b| {
      BranchesAreGeneral(a, b);
    }
  }

  lemma {:induction false} TreesAreGeneral(a: Tree, b: Tree)
    requires LetFree(a)
    ensures CompareTrees(a, b) == General(a, b)
    decreases Size(a), 2
  {
    hide CompareSameKind, LetFree, CompareStrings, GeneralAll;
    if Kind(a) == Kind(b) {
      SameKindIsGeneral(a, b);
    }
  }

  lemma {:induction false} SameKindIsGeneral(a: Tree, b: Tree)
    requires LetFree(a) && Kind(a) == Kind(b)
    ensures CompareSameKind(a, b) == General(a, b)
    decreases Size(a), 1
  {
    hide General, CompareSameKind, AllLetFree;
    if a.SequentialDefs? || a.TypeFunction? || a.ProductType? || a.SumType? || a.TupleOf? {
      SameListsAreGeneral(a, b);
    } else {
      SameOthersAreGeneral(a, b);
    }
  }

  lemma {:induction false} SameListsAreGeneral(a: Tree, b: Tree)
    requires LetFree(a) && Kind(a) == Kind(b) && (a.SequentialDefs? || a.TypeFunction? || a.ProductType? || a.SumType? || a.TupleOf?)
    ensures CompareSameKind(a, b) == General(a, b)
    decreases Size(a), 0
  {
    hide CompareLinks, GeneralLinks, AllLetFree, CompareStrings, CompareLists, GeneralAll, CompareTails;
    SameStringsAreZero("");
    ChildrenAreSmaller(a);
    ListsAreGeneral(a.branches, b.branches);
  }

  lemma {:induction false} SameOthersAreGeneral(a: Tree, b: Tree)
    requires LetFree(a) && Kind(a) == Kind(b) && !(a.SequentialDefs? || a.TypeFunction? || a.ProductType? || a.SumType? || a.TupleOf?)
    ensures CompareSameKind(a, b) == General(a, b)
    decreases Size(a), 0
  {
    hide CompareLinks, GeneralLinks, AllLetFree, CompareStrings, CompareLists, GeneralAll, CompareTails;
    SameStringsAreZero("");
    match a
    case TypeSpec(_, _, d) => FewAreGeneral(d, None, None, b.def, None, None);
    case FunctionDef(_, _, _, ps, body) => FewAreGeneral(ps, body, None, b.parameters, b.body, None);
    case ParameterList(_, _, n) => FewAreGeneral(n, None, None, b.next, None, None);
    case FunctionCall(_, f, args) => FewAreGeneral(f, args, None, b.function', b.arguments, None);
    case ArgumentList(_, arg, n) => FewAreGeneral(arg, n, None, b.argument, b.next, None);
    case Operator(_, _, x, y) => FewAreGeneral(x, y, None, b.op1, b.op2, None);
    case IfExpr(_, i, t, e) => FewAreGeneral(i, t, e, b.if', b.then', b.else');
    case Bracket(_, d) => FewAreGeneral(d, None, None, b.def, None, None);
    case Index(_, e, i) => FewAreGeneral(e, i, None, b.expr, b.index, None);
    case _ => NothingIsGeneral();
  }

  lemma NothingIsGeneral()
    ensures GeneralAll([], []) == 0
  {
  }

  lemma {:induction false} FewAreGeneral(a: Link, b: Link, c: Link, d: Link, e: Link, f: Link)
    requires AllLetFree([a, b, c]) || (c.None? && AllLetFree([a, b])) || (c.None? && b.None? && AllLetFree([a]))
    ensures GeneralAll([a], [d]) == CompareLinks(a, d) && CompareTails(a, d) == CompareLinks(a, d) && CompareTails(b, e) == CompareLinks(b, e)
    ensures GeneralAll([a, b], [d, e]) == First(CompareLinks(a, d), CompareLinks(b, e))
    ensures GeneralAll([a, b, c], [d, e, f]) == First(CompareLinks(a, d), First(CompareLinks(b, e), CompareLinks(c, f)))
    decreases LinkSize(a) + LinkSize(b) + LinkSize(c), 4
  {
    hide CompareLinks, GeneralLinks, AllLetFree, GeneralAll, CompareTails;
    LetFreeFew(a, b, c);
    LetFreeFew(b, c, None);
    LetFreeFew(c, None, None);
    GeneralOfFew(a, b, c, d, e, f);
    LinksAreGeneral(a, d);
    LinksAreGeneral(b, e);
    LinksAreGeneral(c, f);
  }

  // ---- The order -----------------------------------------------------------------------------------

  /** Swapping the arguments swaps the sign. */
  predicate Opposite(ab: int, ba: int) {
    ab == -ba && -1 <= ab <= 1
  }

  /** How the results for a, b and b, c determine the one for a, c. */
  predicate Chained(ab: int, bc: int, ac: int) {
    && (ab <= 0 && bc <= 0 ==> ac <= 0 && (ab < 0 || bc < 0 ==> ac < 0))
    && (ab >= 0 && bc >= 0 ==> ac >= 0 && (ab > 0 || bc > 0 ==> ac > 0))
  }

  lemma ChainedFirst(ab: int, bc: int, ac: int, ab': int, bc': int, ac': int)
    requires Chained(ab, bc, ac) && (ab == 0 && bc == 0 ==> Chained(ab', bc', ac'))
    ensures Chained(First(ab, ab'), First(bc, bc'), First(ac, ac'))
  {
  }

  lemma {:induction false} StringsOpposite(a: string, b: string)
    ensures Opposite(CompareStrings(a, b), CompareStrings(b, a))
    ensures CompareStrings(a, b) == 0 <==> a == b
  {
    if a != [] && b != [] && a[0] == b[0] {
      StringsOpposite(a[1..], b[1..]);
      assert a == [a[0]] + a[1..] && b == [b[0]] + b[1..];
    }
  }

  lemma {:induction false} StringsChained(a: string, b: string, c: string)
    ensures Chained(CompareStrings(a, b), CompareStrings(b, c), CompareStrings(a, c))
  {
    if a != [] && b != [] && c != [] && a[0] == b[0] == c[0] {
      StringsChained(a[1..], b[1..], c[1..]);
    }
  }

  lemma {:induction false} GeneralOpposite(a: Tree, b: Tree)
    ensures Opposite(General(a, b), General(b, a))
    decreases Size(a), 0
  {
    hide CompareStrings, GeneralAll, GeneralLinks;
    ChildrenAreSmaller(a);
    StringsOpposite(Text(a), Text(b));
    AllOpposite(Children(a), Children(b));
    hide Text, Number, Children, Kind;
  }

  lemma {:induction false} LinksOpposite(a: Link, b: Link)
    ensures Opposite(GeneralLinks(a, b), GeneralLinks(b, a))
    decreases LinkSize(a), 1
  {
    hide General;
    if a.Some? && b.Some? {
      GeneralOpposite(a.value, b.value);
    }
  }

  lemma {:induction false} AllOpposite(as': seq<Link>, bs: seq<Link>)
    ensures Opposite(GeneralAll(as', bs), GeneralAll(bs, as'))
    decreases LinksSize(as'), |as'| + 2
  {
    hide GeneralLinks;
    if as' != [] && bs != [] {
      LinksOpposite(as'[0], bs[0]);
      AllOpposite(as'[1..], bs[1..]);
    }
  }

  lemma {:induction false} GeneralChained(a: Tree, b: Tree, c: Tree)
    ensures Chained(General(a, b), General(b, c), General(a, c))
    decreases Size(a), 0
  {
    hide CompareStrings, GeneralAll, GeneralLinks, Text, Number, Children, Kind, Chained, First;
    ChildrenAreSmaller(a);
    var x, y, z := Children(a), Children(b), Children(c);
    IntsChained(Kind(a), Kind(b), Kind(c));
    StringsChained(Text(a), Text(b), Text(c));
    IntsChained(Number(a), Number(b), Number(c));
    IntsChained(|x|, |y|, |z|);
    if |x| == |y| == |z| {
      AllChained(x, y, z);
    }
    ChainedFirst(CompareInts(|x|, |y|), CompareInts(|y|, |z|), CompareInts(|x|, |z|), GeneralAll(x, y), GeneralAll(y, z), GeneralAll(x, z));
    var ab, bc, ac := First(CompareInts(|x|, |y|), GeneralAll(x, y)), First(CompareInts(|y|, |z|), GeneralAll(y, z)), First(CompareInts(|x|, |z|), GeneralAll(x, z));
    ChainedFirst(CompareInts(Number(a), Number(b)), CompareInts(Number(b), Number(c)), CompareInts(Number(a), Number(c)), ab, bc, ac);
    var ab', bc', ac' := First(CompareInts(Number(a), Number(b)), ab), First(CompareInts(Number(b), Number(c)), bc), First(CompareInts(Number(a), Number(c)), ac);
    ChainedFirst(CompareStrings(Text(a), Text(b)), CompareStrings(Text(b), Text(c)), CompareStrings(Text(a), Text(c)), ab', bc', ac');
    ChainedFirst(CompareInts(Kind(a), Kind(b)), CompareInts(Kind(b), Kind(c)), CompareInts(Kind(a), Kind(c)),
      First(CompareStrings(Text(a), Text(b)), ab'), First(CompareStrings(Text(b), Text(c)), bc'), First(CompareStrings(Text(a), Text(c)), ac'));
  }

  lemma IntsChained(a: int, b: int, c: int)
    ensures Chained(CompareInts(a, b), CompareInts(b, c), CompareInts(a, c))
  {
  }

  lemma {:induction false} LinksChained(a: Link, b: Link, c: Link)
    ensures Chained(GeneralLinks(a, b), GeneralLinks(b, c), GeneralLinks(a, c))
    decreases LinkSize(a), 1
  {
    hide General;
    if a.Some? && b.Some? && c.Some? {
      GeneralChained(a.value, b.value, c.value);
    }
  }

  lemma {:induction false} AllChained(as': seq<Link>, bs: seq<Link>, cs: seq<Link>)
    requires |as'| == |bs| == |cs|
    ensures Chained(GeneralAll(as', bs), GeneralAll(bs, cs), GeneralAll(as', cs))
    decreases LinksSize(as'), |as'| + 2
  {
    hide GeneralLinks;
    if as' != [] {
      LinksChained(as'[0], bs[0], cs[0]);
      AllChained(as'[1..], bs[1..], cs[1..]);
      ChainedFirst(GeneralLinks(as'[0], bs[0]), GeneralLinks(bs[0], cs[0]), GeneralLinks(as'[0], cs[0]),
        GeneralAll(as'[1..], bs[1..]), GeneralAll(bs[1..], cs[1..]), GeneralAll(as'[1..], cs[1..]));
    }
  }

  // ---- Zero ----------------------------------------------------------------------------------------

  lemma BareFew(a: Link, b: Link, c: Link)
    ensures BareLinks([a]) == [BareLink(a)]
    ensures BareLinks([a, b]) == [BareLink(a), BareLink(b)]
    ensures BareLinks([a, b, c]) == [BareLink(a), BareLink(b), BareLink(c)]
  {
    hide BareLink;
    assert [a][1..] == [] && [b][1..] == [] && [c][1..] == [];
    assert [a, b][1..] == [b] && [b, c][1..] == [c] && [a, b, c][1..] == [b, c];
    assert BareLinks([b, c]) == [BareLink(b)] + BareLinks([c]);
  }

  /** Stripping a tree keeps its kind, text and number, and strips its children. */
  lemma BareParts(t: Tree)
    ensures Kind(Bare(t)) == Kind(t) && Text(Bare(t)) == Text(t) && Number(Bare(t)) == Number(t)
    ensures Children(Bare(t)) == BareLinks(Children(t))
  {
    hide BareLink, BareLinks;
    match t
    case TypeSpec(_, _, d) => BareFew(d, None, None);
    case FunctionDef(_, _, _, ps, b) => BareFew(ps, b, None);
    case ParameterList(_, _, n) => BareFew(n, None, None);
    case FunctionCall(_, f, a) => BareFew(f, a, None);
    case ArgumentList(_, a, n) => BareFew(a, n, None);
    case Operator(_, _, a, b) => BareFew(a, b, None);
    case IfExpr(_, i, x, e) => BareFew(i, x, e);
    case Bracket(_, d) => BareFew(d, None, None);
    case Index(_, e, i) => BareFew(e, i, None);
    case Let(_, v, e, c) => BareFew(v, e, c);
    case _ => NothingBare();
  }

  lemma NothingBare()
    ensures BareLinks([]) == []
  {
  }

  /** Stripped trees that agree in kind, text, number and children are equal. */
  lemma BareDetermined(a: Tree, b: Tree)
    requires Kind(a) == Kind(b) && Text(a) == Text(b) && Number(a) == Number(b) && Children(a) == Children(b)
    requires a.typeId == None && b.typeId == None && (a.FunctionDef? ==> a.cachedType == None) && (b.FunctionDef? ==> b.cachedType == None)
    ensures a == b
  {
    match a
    case TypeSpec(_, _, d) => assert Children(a)[0] == d;
    case FunctionDef(_, _, _, ps, x) => assert Children(a)[0] == ps && Children(a)[1] == x;
    case ParameterList(_, _, n) => assert Children(a)[0] == n;
    case FunctionCall(_, f, x) => assert Children(a)[0] == f && Children(a)[1] == x;
    case ArgumentList(_, x, n) => assert Children(a)[0] == x && Children(a)[1] == n;
    case Operator(_, _, x, y) => assert Children(a)[0] == x && Children(a)[1] == y;
    case IfExpr(_, i, x, e) => assert Children(a)[0] == i && Children(a)[1] == x && Children(a)[2] == e;
    case Bracket(_, d) => assert Children(a)[0] == d;
    case Index(_, e, i) => assert Children(a)[0] == e && Children(a)[1] == i;
    case Let(_, v, e, c) => assert Children(a)[0] == v && Children(a)[1] == e && Children(a)[2] == c;
    case _ =>
  }

  lemma BareIsBare(t: Tree)
    ensures Bare(t).typeId == None && (Bare(t).FunctionDef? ==> Bare(t).cachedType == None)
  {
  }

  lemma {:induction false} GeneralZero(a: Tree, b: Tree)
    ensures General(a, b) == 0 <==> Bare(a) == Bare(b)
    decreases Size(a), 0
  {
    hide General, GeneralAll, Text, Number, Children, Kind, Bare, BareLinks;
    ChildrenAreSmaller(a);
    ZeroParts(a, b);
    BareParts(a);
    BareParts(b);
    if |Children(a)| == |Children(b)| {
      AllZero(Children(a), Children(b));
    }
    BareIsBare(a);
    BareIsBare(b);
    if General(a, b) == 0 {
      BareDetermined(Bare(a), Bare(b));
    }
  }

  lemma ZeroParts(a: Tree, b: Tree)
    ensures General(a, b) == 0 <==>
      Kind(a) == Kind(b) && Text(a) == Text(b) && Number(a) == Number(b) && |Children(a)| == |Children(b)| && GeneralAll(Children(a), Children(b)) == 0
  {
    hide CompareStrings, GeneralAll, Text, Number, Children, Kind;
    StringsOpposite(Text(a), Text(b));
  }

  lemma {:induction false} LinksZero(a: Link, b: Link)
    ensures GeneralLinks(a, b) == 0 <==> BareLink(a) == BareLink(b)
    decreases LinkSize(a), 1
  {
    hide General, Bare;
    if a.Some? && b.Some? {
      GeneralZero(a.value, b.value);
    }
  }

  lemma {:induction false} AllZero(as': seq<Link>, bs: seq<Link>)
    requires |as'| == |bs|
    ensures GeneralAll(as', bs) == 0 <==> BareLinks(as') == BareLinks(bs)
    decreases LinksSize(as'), |as'| + 2
  {
    hide GeneralLinks, BareLink;
    if as' != [] {
      LinksZero(as'[0], bs[0]);
      AllZero(as'[1..], bs[1..]);
      var x, y := BareLinks(as'), BareLinks(bs);
      assert x[0] == BareLink(as'[0]) && x[1..] == BareLinks(as'[1..]);
      assert y[0] == BareLink(bs[0]) && y[1..] == BareLinks(bs[1..]);
    }
  }

  // ---- What decides --------------------------------------------------------------------------------

  /** The order of strcmp: after what the two have in common a ends, or has the smaller character. */
  ghost predicate StringLess(a: string, b: string) {
    exists i :: 0 <= i <= |a| && i < |b| && a[..i] == b[..i] && (i == |a| || a[i] < b[i])
  }

  lemma {:induction false} StringsDecide(a: string, b: string)
    ensures CompareStrings(a, b) == -1 <==> StringLess(a, b)
  {
    if a == [] {
      assert b != [] ==> a[..0] == b[..0];
    } else if b != [] && a[0] == b[0] {
      StringsDecide(a[1..], b[1..]);
      LessAfterSame(a, b);
    } else if b != [] {
      assert a[..0] == b[..0];
      NotLessAtFirst(a, b);
    }
  }

  /** The characters that the two start with do not matter. */
  lemma LessAfterSame(a: string, b: string)
    requires a != [] && b != [] && a[0] == b[0]
    ensures StringLess(a, b) <==> StringLess(a[1..], b[1..])
  {
    if StringLess(a, b) {
      var i :| 0 <= i <= |a| && i < |b| && a[..i] == b[..i] && (i == |a| || a[i] < b[i]);
      assert i > 0;
      assert a[1..][..i - 1] == a[..i][1..] == b[..i][1..] == b[1..][..i - 1];
    }
    if StringLess(a[1..], b[1..]) {
      var i :| 0 <= i <= |a[1..]| && i < |b[1..]| && a[1..][..i] == b[1..][..i] && (i == |a[1..]| || a[1..][i] < b[1..][i]);
      assert a[..i + 1] == [a[0]] + a[1..][..i] == b[..i + 1];
    }
  }

  lemma NotLessAtFirst(a: string, b: string)
    requires a != [] && b != [] && a[0] != b[0]
    ensures StringLess(a, b) <==> a[0] < b[0]
  {
    forall i | 0 < i <= |a| && i < |b|
      ensures a[..i] != b[..i]
    {
      assert a[..i][0] != b[..i][0];
    }
    assert a[..0] == b[..0];
  }

  lemma PartIsSmaller(ls: seq<Link>, i: nat)
    requires i < |ls|
    ensures LinkSize(ls[i]) <= LinksSize(ls)
  {
    if i > 0 {
      PartIsSmaller(ls[1..], i - 1);
    }
  }

  /** The smaller kind is less, then the smaller text, the smaller number, the smaller number of children; and
      where all these are the same, the one that is less at the first child that differs. */
  ghost predicate TreeLess(a: Tree, b: Tree)
    decreases Size(a), 0
  {
    ChildrenAreSmaller(a);
    || Kind(a) < Kind(b)
    || (Kind(a) == Kind(b) && StringLess(Text(a), Text(b)))
    || (Kind(a) == Kind(b) && Text(a) == Text(b) && Number(a) < Number(b))
    || (Kind(a) == Kind(b) && Text(a) == Text(b) && Number(a) == Number(b) && |Children(a)| < |Children(b)|)
    || (Kind(a) == Kind(b) && Text(a) == Text(b) && Number(a) == Number(b) && LessAtFirst(Children(a), Children(b)))
  }

  /** A missing tree is less than any other. */
  ghost predicate LinkLess(a: Link, b: Link)
    decreases LinkSize(a), 1
  {
    b.Some? && (a.None? || TreeLess(a.value, b.value))
  }

  ghost predicate LessAtFirst(as': seq<Link>, bs: seq<Link>)
    decreases LinksSize(as'), 3
  {
    |as'| == |bs| && exists i :: 0 <= i < |as'| && LessAt(as', bs, i)
  }

  /** Up to i the same trees, and there a smaller one. */
  ghost predicate LessAt(as': seq<Link>, bs: seq<Link>, i: nat)
    requires i < |as'| == |bs|
    decreases LinksSize(as'), 2
  {
    PartIsSmaller(as', i);
    BareLinks(as'[..i]) == BareLinks(bs[..i]) && LinkLess(as'[i], bs[i])
  }

  /** So the comparison says exactly which tree is less. */
  lemma {:induction false} TreesDecide(a: Tree, b: Tree)
    requires LetFree(a)
    ensures CompareTrees(a, b) == -1 <==> TreeLess(a, b)
  {
    hide *;
    TreesAreGeneral(a, b);
    GeneralDecides(a, b);
  }

  lemma {:induction false} GeneralDecides(a: Tree, b: Tree)
    ensures General(a, b) == -1 <==> TreeLess(a, b)
    decreases Size(a), 0
  {
    hide CompareStrings, StringLess, GeneralAll, LessAtFirst, Text, Number, Children, Kind, Size, LinksSize;
    ChildrenAreSmaller(a);
    StringsOpposite(Text(a), Text(b));
    StringsDecide(Text(a), Text(b));
    NotLessThanItself(Text(a));
    if |Children(a)| == |Children(b)| {
      AllDecide(Children(a), Children(b));
    } else {
      NotLessAtFirstOfMore(Children(a), Children(b));
    }
  }

  lemma NotLessThanItself(a: string)
    ensures !StringLess(a, a)
  {
  }

  lemma NotLessAtFirstOfMore(as': seq<Link>, bs: seq<Link>)
    requires |as'| != |bs|
    ensures !LessAtFirst(as', bs)
  {
  }

  lemma {:induction false} LinksDecide(a: Link, b: Link)
    ensures GeneralLinks(a, b) == -1 <==> LinkLess(a, b)
    decreases LinkSize(a), 1
  {
    hide General, TreeLess;
    if a.Some? && b.Some? {
      GeneralDecides(a.value, b.value);
    }
  }

  lemma {:induction false} AllDecide(as': seq<Link>, bs: seq<Link>)
    requires |as'| == |bs|
    ensures GeneralAll(as', bs) == -1 <==> LessAtFirst(as', bs)
    decreases LinksSize(as'), |as'| + 2
  {
    if as' != [] {
      LinksZero(as'[0], bs[0]);
      LinksDecide(as'[0], bs[0]);
      AllDecide(as'[1..], bs[1..]);
      hide GeneralLinks, LinkLess, BareLink, LinkSize;
      LessAtFirstOrLater(as', bs);
    }
  }

  lemma LessAtFirstOrLater(as': seq<Link>, bs: seq<Link>)
    requires |as'| == |bs| > 0
    ensures LessAtFirst(as', bs) <==>
      LinkLess(as'[0], bs[0]) || (BareLink(as'[0]) == BareLink(bs[0]) && LessAtFirst(as'[1..], bs[1..]))
  {
    hide LinkLess, BareLink, LinkSize;
    if LessAtFirst(as', bs) {
      var i := LessSomewhere(as', bs);
      if i > 0 {
        LessAtNext(as', bs, i - 1);
      }
    }
    if LessAtFirst(as'[1..], bs[1..]) {
      var i := LessSomewhere(as'[1..], bs[1..]);
      LessAtNext(as', bs, i);
    }
    assert as'[..0] == [] && bs[..0] == [];
    assert LessAt(as', bs, 0) <==> LinkLess(as'[0], bs[0]);
  }

  lemma LessSomewhere(as': seq<Link>, bs: seq<Link>) returns (i: nat)
    requires LessAtFirst(as', bs)
    ensures i < |as'| == |bs| && LessAt(as', bs, i)
  {
    i :| i < |as'| && LessAt(as', bs, i);
  }

  lemma LessAtNext(as': seq<Link>, bs: seq<Link>, i: nat)
    requires i + 1 < |as'| == |bs|
    ensures LessAt(as', bs, i + 1) <==> BareLink(as'[0]) == BareLink(bs[0]) && LessAt(as'[1..], bs[1..], i)
  {
    hide LinkLess, BareLink, LinkSize;
    assert as'[..i + 1][1..] == as'[1..][..i] && bs[..i + 1][1..] == bs[1..][..i];
    var x, y := BareLinks(as'[..i + 1]), BareLinks(bs[..i + 1]);
    assert x[0] == BareLink(as'[0]) && x[1..] == BareLinks(as'[1..][..i]);
    assert y[0] == BareLink(bs[0]) && y[1..] == BareLinks(bs[1..][..i]);
  }

  lemma TwoInOrder(a: Tree, b: Tree, x: Link, y: Link, x': Link, y': Link)
    requires !a.Let? && AllLetFree([x]) && AllLetFree([y])
    requires Kind(a) == Kind(b) && Text(a) == Text(b) && Number(a) == Number(b)
    requires Children(a) == [x, y] && Children(b) == [x', y']
    ensures CompareTrees(a, b) == if BareLink(x) != BareLink(x') then CompareLinks(x, x') else CompareLinks(y, y')
  {
    hide CompareTrees, CompareLinks, GeneralLinks, GeneralAll, BareLink, AllLetFree, CompareStrings, Children, Text, Number, Kind;
    LetFreeFew(x, y, None);
    TreesAreGeneral(a, b);
    SameStringsAreZero(Text(a));
    GeneralOfFew(x, y, None, x', y', None);
    LinksAreGeneral(x, x');
    LinksAreGeneral(y, y');
    LinksZero(x, x');
  }

  lemma ThreeInOrder(a: Tree, b: Tree, x: Link, y: Link, z: Link, x': Link, y': Link, z': Link)
    requires !a.Let? && AllLetFree([x]) && AllLetFree([y]) && AllLetFree([z])
    requires Kind(a) == Kind(b) && Text(a) == Text(b) && Number(a) == Number(b)
    requires Children(a) == [x, y, z] && Children(b) == [x', y', z']
    ensures CompareTrees(a, b) ==
      if BareLink(x) != BareLink(x') then CompareLinks(x, x') else if BareLink(y) != BareLink(y') then CompareLinks(y, y') else CompareLinks(z, z')
  {
    hide CompareTrees, CompareLinks, GeneralLinks, GeneralAll, BareLink, AllLetFree, CompareStrings, Children, Text, Number, Kind;
    LetFreeFew(x, y, z);
    TreesAreGeneral(a, b);
    SameStringsAreZero(Text(a));
    GeneralOfFew(x, y, z, x', y', z');
    LinksAreGeneral(x, x');
    LinksAreGeneral(y, y');
    LinksAreGeneral(z, z');
    LinksZero(x, x');
    LinksZero(y, y');
  }

  /** The parts of a node count in this order, each where the ones before it are the same. */
  lemma PartsInOrder(x: Link, y: Link, x': Link, y': Link, s: string)
    requires AllLetFree([x, y])
    ensures var r := if BareLink(x) != BareLink(x') then CompareLinks(x, x') else CompareLinks(y, y');
      && CompareTrees(FunctionDef(None, s, None, x, y), FunctionDef(None, s, None, x', y')) == r
      && CompareTrees(FunctionCall(None, x, y), FunctionCall(None, x', y')) == r
      && CompareTrees(ArgumentList(None, x, y), ArgumentList(None, x', y')) == r
  {
    hide CompareTrees, CompareLinks, BareLink, AllLetFree, LetFree;
    LetFreeFew(x, y, None);
    TwoInOrder(FunctionDef(None, s, None, x, y), FunctionDef(None, s, None, x', y'), x, y, x', y');
    TwoInOrder(FunctionCall(None, x, y), FunctionCall(None, x', y'), x, y, x', y');
    TwoInOrder(ArgumentList(None, x, y), ArgumentList(None, x', y'), x, y, x', y');
  }

  lemma OperandsInOrder(x: Link, y: Link, z: Link, x': Link, y': Link, z': Link, s: string)
    requires AllLetFree([x, y, z])
    ensures var r := if BareLink(x) != BareLink(x') then CompareLinks(x, x') else CompareLinks(y, y');
      && CompareTrees(Operator(None, s, x, y), Operator(None, s, x', y')) == r
      && CompareTrees(Index(None, x, y), Index(None, x', y')) == r
    ensures CompareTrees(IfExpr(None, x, y, z), IfExpr(None, x', y', z')) ==
      if BareLink(x) != BareLink(x') then CompareLinks(x, x') else if BareLink(y) != BareLink(y') then CompareLinks(y, y') else CompareLinks(z, z')
  {
    hide CompareTrees, CompareLinks, BareLink, AllLetFree, LetFree;
    LetFreeFew(x, y, z);
    TwoInOrder(Operator(None, s, x, y), Operator(None, s, x', y'), x, y, x', y');
    TwoInOrder(Index(None, x, y), Index(None, x', y'), x, y, x', y');
    ThreeInOrder(IfExpr(None, x, y, z), IfExpr(None, x', y', z'), x, y, z, x', y', z');
  }

  // ---- The results ---------------------------------------------------------------------------------

  /** On trees without let-expressions the comparison is a total order: the sign turns round with the
      arguments, it is transitive, and it is zero exactly for trees that are the same up to type ids and the
      cached types of function definitions. */
  lemma TotalOrder(a: Tree, b: Tree, c: Tree)
    requires LetFree(a) && LetFree(b) && LetFree(c)
    ensures CompareTrees(a, b) == -CompareTrees(b, a) && -1 <= CompareTrees(a, b) <= 1
    ensures CompareTrees(a, b) <= 0 && CompareTrees(b, c) <= 0 ==> CompareTrees(a, c) <= 0
    ensures CompareTrees(a, b) < 0 && CompareTrees(b, c) < 0 ==> CompareTrees(a, c) < 0
    ensures CompareTrees(a, b) == 0 <==> Bare(a) == Bare(b)
  {
    hide General, CompareTrees, LetFree, Bare;
    TreesAreGeneral(a, b);
    TreesAreGeneral(b, a);
    TreesAreGeneral(b, c);
    TreesAreGeneral(a, c);
    GeneralOpposite(a, b);
    GeneralChained(a, b, c);
    GeneralZero(a, b);
  }

  /** Two let-expressions with let-free parts compare as equal exactly if they have the same variable, or the
      same expression, or the same code. */
  lemma LetsCompareEqual(a: Tree, b: Tree)
    requires a.Let? && b.Let? && AllLetFree(Children(a))
    ensures CompareTrees(a, b) == 0 <==>
      BareLink(a.var') == BareLink(b.var') || BareLink(a.letExpr) == BareLink(b.letExpr) || BareLink(a.code) == BareLink(b.code)
  {
    LetFreeFew(a.var', a.letExpr, a.code);
    hide *;
    LetsCompare(a, b);
    LinksAreGeneral(a.var', b.var');
    LinksAreGeneral(a.letExpr, b.letExpr);
    LinksAreGeneral(a.code, b.code);
    LinksZero(a.var', b.var');
    LinksZero(a.letExpr, b.letExpr);
    LinksZero(a.code, b.code);
  }

  lemma LetsCompare(a: Tree, b: Tree)
    requires a.Let? && b.Let?
    ensures CompareTrees(a, b) ==
      if CompareLinks(a.var', b.var') != 0 && CompareLinks(a.letExpr, b.letExpr) != 0 then CompareLinks(a.code, b.code) else 0
  {
    hide CompareLinks;
    LetsAreSameKind(a, b);
    hide CompareSameKind;
  }

  lemma LetsAreSameKind(a: Tree, b: Tree)
    requires a.Let? && b.Let?
    ensures Kind(a) == Kind(b)
    ensures CompareSameKind(a, b) ==
      if CompareLinks(a.var', b.var') != 0 && CompareLinks(a.letExpr, b.letExpr) != 0 then CompareLinks(a.code, b.code) else 0
  {
    hide CompareLinks;
  }

  /** So different let-expressions can compare as equal: let x = 1 in z and let y = 1 in z. */
  lemma DifferentLetsCompareEqual()
    ensures var x, y, one, z := Identifier(None, "x"), Identifier(None, "y"), Integer(None, 1), Identifier(None, "z");
      var a, b := Let(None, Some(x), Some(one), Some(z)), Let(None, Some(y), Some(one), Some(z));
      CompareTrees(a, b) == 0 && Bare(a) != Bare(b)
  {
    var x, y, one, z := Identifier(None, "x"), Identifier(None, "y"), Integer(None, 1), Identifier(None, "z");
    assert CompareLinks(Some(x), Some(y)) == CompareStrings("x", "y") != 0;
    assert CompareLinks(Some(one), Some(one)) == 0;
  }
}
