/** Syntax trees of Minimal (minimal/src/minimal_c.h). A missing child is None, as is a type id that is not
    set. */
module SyntaxTrees {
  import opened Options

  type Link = Option<Tree>

  datatype Tree =
    | Blank(typeId: Option<string>)
    | Nil(typeId: Option<string>)
    | Identifier(typeId: Option<string>, name: string)
    | Integer(typeId: Option<string>, value: int)
    | Str(typeId: Option<string>, text: string)
    | SequentialDefs(typeId: Option<string>, branches: seq<Link>)
    | TypeSpec(typeId: Option<string>, name: string, def: Link)
    | TypeFunction(typeId: Option<string>, branches: seq<Link>)
    | FunctionDef(typeId: Option<string>, name: string, cachedType: Link, parameters: Link, body: Link)
    | ParameterList(typeId: Option<string>, name: string, next: Link)
    | FunctionCall(typeId: Option<string>, function': Link, arguments: Link)
    | ArgumentList(typeId: Option<string>, argument: Link, next: Link)
    | Operator(typeId: Option<string>, operator: string, op1: Link, op2: Link)
    | ProductType(typeId: Option<string>, branches: seq<Link>)
    | SumType(typeId: Option<string>, branches: seq<Link>)
    | TupleOf(typeId: Option<string>, branches: seq<Link>)
    | Pointer(typeId: Option<string>, name: string)
    | IfExpr(typeId: Option<string>, if': Link, then': Link, else': Link)
    | Bracket(typeId: Option<string>, def: Link)
    | Index(typeId: Option<string>, expr: Link, index: Link)
    | Let(typeId: Option<string>, var': Link, letExpr: Link, code: Link)

  /** A tree without type ids and without the types cached in function definitions. */
  function Bare(t: Tree): Tree {
    match t
    case Blank(_) => Blank(None)
    case Nil(_) => Nil(None)
    case Identifier(_, n) => Identifier(None, n)
    case Integer(_, v) => Integer(None, v)
    case Str(_, s) => Str(None, s)
    case SequentialDefs(_, bs) => SequentialDefs(None, BareLinks(bs))
    case TypeSpec(_, n, d) => TypeSpec(None, n, BareLink(d))
    case TypeFunction(_, bs) => TypeFunction(None, BareLinks(bs))
    case FunctionDef(_, n, _, ps, b) => FunctionDef(None, n, None, BareLink(ps), BareLink(b))
    case ParameterList(_, n, next) => ParameterList(None, n, BareLink(next))
    case FunctionCall(_, f, a) => FunctionCall(None, BareLink(f), BareLink(a))
    case ArgumentList(_, a, next) => ArgumentList(None, BareLink(a), BareLink(next))
    case Operator(_, o, a, b) => Operator(None, o, BareLink(a), BareLink(b))
    case ProductType(_, bs) => ProductType(None, BareLinks(bs))
    case SumType(_, bs) => SumType(None, BareLinks(bs))
    case TupleOf(_, bs) => TupleOf(None, BareLinks(bs))
    case Pointer(_, n) => Pointer(None, n)
    case IfExpr(_, i, t, e) => IfExpr(None, BareLink(i), BareLink(t), BareLink(e))
    case Bracket(_, d) => Bracket(None, BareLink(d))
    case Index(_, e, i) => Index(None, BareLink(e), BareLink(i))
    case Let(_, v, e, c) => Let(None, BareLink(v), BareLink(e), BareLink(c))
  }

  function BareLink(l: Link): Link {
    if l.None? then None else Some(Bare(l.value))
  }

  function BareLinks(ls: seq<Link>): (r: seq<Link>)
    ensures |r| == |ls|
  {
    if ls == [] then [] else [BareLink(ls[0])] + BareLinks(ls[1..])
  }
}
