/** Re-associating nested tuples between product types: the comparison of two product types emits a small
    register program (linda/src/linda/match.py), which is run on values (linda/src/linda/convertvalue.py). */
module ConvertValue {
  import opened Options

  /** Basic stands for every type that is neither a product nor named; Named holds the definition that the
      type cache has for it. */
  datatype Type =
    | Basic(typeId: string, name: string)
    | Named(typeId: string, name: string, def: Type)
    | Product(typeId: string, parts: seq<Type>)

  datatype Value =
    | Atom(typeId: string, payload: int)
    | Tuple(typeId: string, elems: seq<Value>)

  datatype Instruction =
    | SetTypeId(id: string)
    | Eval(code: seq<Instruction>)
    | Explode
    | Rotate
    | Construct(target: Type)

  type Code = seq<Instruction>

  // ---- Types ---------------------------------------------------------------------------------------

  /** The types at the leaves of t, from left to right: t itself, one level of its name undone, or the leaf
      types of its parts. */
  function LeafTypes(t: Type): seq<Type> {
    match t
    case Product(_, parts) => LeafTypesOf(parts)
    case Named(_, _, def) => if def.Product? then LeafTypesOf(def.parts) else [def]
    case Basic(_, _) => [t]
  }

  function LeafTypesOf(ts: seq<Type>): seq<Type> {
    if ts == [] then [] else LeafTypes(ts[0]) + LeafTypesOf(ts[1..])
  }

  function Size(t: Type): nat {
    |LeafTypes(t)|
  }

  // ---- Values --------------------------------------------------------------------------------------

  /** Nested tuples flattened. */
  function Exploded(v: Value): seq<Value> {
    match v
    case Atom(_, _) => [v]
    case Tuple(_, elems) => ExplodedAll(elems)
  }

  function ExplodedAll(vs: seq<Value>): seq<Value> {
    if vs == [] then [] else Exploded(vs[0]) + ExplodedAll(vs[1..])
  }

  /** v is a value of t, as far as products go. */
  ghost predicate HasShape(t: Type, v: Value) {
    match t
    case Product(_, parts) => v.Tuple? && HaveShape(parts, v.elems)
    case Named(_, _, def) => def.Product? ==> v.Tuple? && HaveShape(def.parts, v.elems)
    case Basic(_, _) => true
  }

  ghost predicate HaveShape(ts: seq<Type>, vs: seq<Value>) {
    |vs| == |ts| && (ts != [] ==> HasShape(ts[0], vs[0]) && HaveShape(ts[1..], vs[1..]))
  }

  /** What v holds at the leaves of t. */
  ghost function LeavesAt(t: Type, v: Value): seq<Value>
    requires HasShape(t, v)
  {
    match t
    case Product(_, parts) => LeavesAtAll(parts, v.elems)
    case Named(_, _, def) => if def.Product? then LeavesAtAll(def.parts, v.elems) else [v]
    case Basic(_, _) => [v]
  }

  ghost function LeavesAtAll(ts: seq<Type>, vs: seq<Value>): seq<Value>
    requires HaveShape(ts, vs)
  {
    if ts == [] then [] else LeavesAt(ts[0], vs[0]) + LeavesAtAll(ts[1..], vs[1..])
  }

  ghost predicate AllAtoms(vs: seq<Value>) {
    forall i :: 0 <= i < |vs| ==> vs[i].Atom?
  }

  /** A value without its type ids. */
  function Plain(v: Value): Value {
    match v
    case Atom(_, p) => Atom("", p)
    case Tuple(_, elems) => Tuple("", PlainAll(elems))
  }

  function PlainAll(vs: seq<Value>): seq<Value> {
    if vs == [] then [] else [Plain(vs[0])] + PlainAll(vs[1..])
  }

  /** The same payloads in the same places, whatever the type ids are. */
  ghost predicate SameButIds(v: Value, w: Value) {
    match v
    case Atom(_, p) => w.Atom? && w.payload == p
    case Tuple(_, elems) => w.Tuple? && |w.elems| == |elems| && forall i :: 0 <= i < |elems| ==> SameButIds(elems[i], w.elems[i])
  }

  lemma {:induction false} PlainAllAt(vs: seq<Value>)
    ensures |PlainAll(vs)| == |vs| && forall i :: 0 <= i < |vs| ==> PlainAll(vs)[i] == Plain(vs[i])
  {
    hide Plain;
    if vs != [] {
      PlainAllAt(vs[1..]);
      assert PlainAll(vs) == [Plain(vs[0])] + PlainAll(vs[1..]);
    }
  }

  lemma {:induction false} PlainIsSame(v: Value, w: Value)
    ensures Plain(v) == Plain(w) <==> SameButIds(v, w)
  {
    if v.Tuple? && w.Tuple? {
      PlainAllAt(v.elems);
      PlainAllAt(w.elems);
      if |v.elems| == |w.elems| {
        forall i | 0 <= i < |v.elems|
          ensures PlainAll(v.elems)[i] == PlainAll(w.elems)[i] <==> SameButIds(v.elems[i], w.elems[i])
        {
          PlainIsSame(v.elems[i], w.elems[i]);
        }
        assert PlainAll(v.elems) == PlainAll(w.elems) <==> forall i :: 0 <= i < |v.elems| ==> PlainAll(v.elems)[i] == PlainAll(w.elems)[i];
      }
    }
  }

  // ---- Programs ------------------------------------------------------------------------------------

  function Reverse<T>(s: seq<T>): seq<T> {
    if s == [] then [] else Reverse(s[1..]) + [s[0]]
  }

  /** construct: takes the leaves it needs from the front of reg. None stands for reading past the end. */
  function Build(t: Type, reg: seq<Value>): Option<(Value, seq<Value>)> {
    match t
    case Product(_, parts) => BuildTuple(parts, reg)
    case Named(_, _, def) => if def.Product? then BuildTuple(def.parts, reg) else TakeFirst(reg)
    case Basic(_, _) => TakeFirst(reg)
  }

  function TakeFirst(reg: seq<Value>): Option<(Value, seq<Value>)> {
    if reg == [] then None else Some((reg[0], reg[1..]))
  }

  function BuildTuple(ts: seq<Type>, reg: seq<Value>): Option<(Value, seq<Value>)>
    decreases ts, 1
  {
    match BuildAll(ts, reg)
    case None => None
    case Some((vs, rest)) => Some((Tuple("", vs), rest))
  }

  function BuildAll(ts: seq<Type>, reg: seq<Value>): Option<(seq<Value>, seq<Value>)>
    decreases ts, 0
  {
    if ts == [] then Some(([], reg)) else
      match Build(ts[0], reg)
      case None => None
      case Some((v, rest)) =>
        match BuildAll(ts[1..], rest)
        case None => None
        case Some((vs, rest')) => Some(([v] + vs, rest'))
  }

  function Retag(v: Value, id: string): Value {
    v.(typeId := id)
  }

  /** One instruction. None stands for an empty register list. */
  function Execute(i: Instruction, regs: seq<Value>): Option<seq<Value>>
    decreases i, 1
  {
    if i.Construct? then
      match Build(i.target, Reverse(regs))
      case None => None
      case Some((v, _)) => Some([v])
    else if regs == [] then None
    else OnTop(i, regs[..|regs| - 1], regs[|regs| - 1])
  }

  function OnTop(i: Instruction, init: seq<Value>, top: Value): Option<seq<Value>>
    requires !i.Construct?
    decreases i, 0
  {
    match i
    case SetTypeId(id) => Some(init + [Retag(top, id)])
    case Eval(code) => (match Run(code, top) case None => None case Some(v) => Some(init + [v]))
    case Explode => Some(init + Reverse(Exploded(top)))
    case Rotate => Some([top] + init)
  }

  function ExecuteAll(code: Code, regs: seq<Value>): Option<seq<Value>>
    decreases code, 0
  {
    if code == [] then Some(regs) else
      match Execute(code[0], regs)
      case None => None
      case Some(regs') => ExecuteAll(code[1..], regs')
  }

  function Run(code: Code, v: Value): Option<Value>
    decreases code, 1
  {
    match ExecuteAll(code, [v])
    case None => None
    case Some(regs) => if regs == [] then None else Some(regs[|regs| - 1])
  }

  /** The program for t2, given the programs for the leaves. */
  function Program(t2: Type, leafCodes: seq<Code>): Code {
    [Explode] + Rounds(leafCodes) + [Construct(t2), SetTypeId(t2.typeId)]
  }

  function Rounds(leafCodes: seq<Code>): Code {
    if leafCodes == [] then [] else [Eval(leafCodes[0]), Rotate] + Rounds(leafCodes[1..])
  }

  // ---- Explode and construct -----------------------------------------------------------------------

  /** Exploding a value whose leaves are no tuples gives its leaves. */
  lemma {:induction false} ExplodesToLeaves(t: Type, v: Value)
    requires HasShape(t, v) && AllAtoms(LeavesAt(t, v))
    ensures Exploded(v) == LeavesAt(t, v)
  {
    match t
    case Product(_, parts) => ExplodesToLeavesAll(parts, v.elems);
    case Named(_, _, def) =>
      if def.Product? {
        ExplodesToLeavesAll(def.parts, v.elems);
      } else {
        assert LeavesAt(t, v)[0].Atom?;
      }
    case Basic(_, _) =>
      assert LeavesAt(t, v)[0].Atom?;
  }

  lemma {:induction false} ExplodesToLeavesAll(ts: seq<Type>, vs: seq<Value>)
    requires HaveShape(ts, vs) && AllAtoms(LeavesAtAll(ts, vs))
    ensures ExplodedAll(vs) == LeavesAtAll(ts, vs)
  {
    if ts != [] {
      var a, b := LeavesAt(ts[0], vs[0]), LeavesAtAll(ts[1..], vs[1..]);
      AllAtomsParts(a, b);
      ExplodesToLeaves(ts[0], vs[0]);
      ExplodesToLeavesAll(ts[1..], vs[1..]);
    }
  }

  lemma AllAtomsParts(a: seq<Value>, b: seq<Value>)
    requires AllAtoms(a + b)
    ensures AllAtoms(a) && AllAtoms(b)
  {
    assert forall i :: 0 <= i < |a| ==> (a + b)[i] == a[i];
    assert forall i :: 0 <= i < |b| ==> (a + b)[|a| + i] == b[i];
  }

  /** construct succeeds exactly if reg holds enough leaves; it then uses up as many as t has and builds a
      value of t from them. */
  lemma {:induction false} BuildsShape(t: Type, reg: seq<Value>)
    ensures Build(t, reg).Some? <==> |reg| >= Size(t)
    ensures Build(t, reg).Some? ==> var (v, rest) := Build(t, reg).value;
      HasShape(t, v) && LeavesAt(t, v) == reg[..Size(t)] && rest == reg[Size(t)..]
  {
    match t
    case Product(_, parts) => BuildsAll(parts, reg);
    case Named(_, _, def) =>
      if def.Product? {
        BuildsAll(def.parts, reg);
      }
    case Basic(_, _) =>
  }

  lemma {:induction false} BuildsAll(ts: seq<Type>, reg: seq<Value>)
    ensures var n := |LeafTypesOf(ts)|;
      && (BuildAll(ts, reg).Some? <==> |reg| >= n)
      && (BuildAll(ts, reg).Some? ==> var (vs, rest) := BuildAll(ts, reg).value;
            HaveShape(ts, vs) && LeavesAtAll(ts, vs) == reg[..n] && rest == reg[n..])
  {
    if ts != [] {
      BuildsShape(ts[0], reg);
      var k := Size(ts[0]);
      if |reg| >= k {
        BuildsAll(ts[1..], reg[k..]);
        if BuildAll(ts, reg).Some? {
          var (v, rest) := Build(ts[0], reg).value;
          var (vs, rest') := BuildAll(ts[1..], rest).value;
          assert ([v] + vs)[1..] == vs;
        }
      }
    }
  }

  lemma {:induction false} LeavesFit(t: Type, v: Value)
    requires HasShape(t, v)
    ensures |LeavesAt(t, v)| == Size(t)
  {
    match t
    case Product(_, parts) => LeavesFitAll(parts, v.elems);
    case Named(_, _, def) =>
      if def.Product? {
        LeavesFitAll(def.parts, v.elems);
      }
    case Basic(_, _) =>
  }

  lemma {:induction false} LeavesFitAll(ts: seq<Type>, vs: seq<Value>)
    requires HaveShape(ts, vs)
    ensures |LeavesAtAll(ts, vs)| == |LeafTypesOf(ts)|
  {
    if ts != [] {
      LeavesFit(ts[0], vs[0]);
      LeavesFitAll(ts[1..], vs[1..]);
    }
  }

  /** A value of t is determined, up to type ids, by what it holds at the leaves. */
  lemma {:induction false} LeavesDetermine(t: Type, v: Value, w: Value)
    requires HasShape(t, v) && HasShape(t, w) && PlainAll(LeavesAt(t, v)) == PlainAll(LeavesAt(t, w))
    ensures Plain(v) == Plain(w)
  {
    match t
    case Product(_, parts) => LeavesDetermineAll(parts, v.elems, w.elems);
    case Named(_, _, def) =>
      if def.Product? {
        LeavesDetermineAll(def.parts, v.elems, w.elems);
      } else {
        assert PlainAll([v])[0] == PlainAll([w])[0];
      }
    case Basic(_, _) =>
      assert PlainAll([v])[0] == PlainAll([w])[0];
  }

  lemma {:induction false} LeavesDetermineAll(ts: seq<Type>, vs: seq<Value>, ws: seq<Value>)
    requires HaveShape(ts, vs) && HaveShape(ts, ws) && PlainAll(LeavesAtAll(ts, vs)) == PlainAll(LeavesAtAll(ts, ws))
    ensures PlainAll(vs) == PlainAll(ws)
  {
    if ts != [] {
      var a, b := LeavesAt(ts[0], vs[0]), LeavesAtAll(ts[1..], vs[1..]);
      var c, d := LeavesAt(ts[0], ws[0]), LeavesAtAll(ts[1..], ws[1..]);
      LeavesFit(ts[0], vs[0]);
      LeavesFit(ts[0], ws[0]);
      PlainAllJoin(a, b);
      PlainAllJoin(c, d);
      PlainAllSize(a);
      PlainAllSize(c);
      SplitsEqually(PlainAll(a), PlainAll(b), PlainAll(c), PlainAll(d));
      LeavesDetermine(ts[0], vs[0], ws[0]);
      LeavesDetermineAll(ts[1..], vs[1..], ws[1..]);
    }
  }

  lemma SplitsEqually<T>(a: seq<T>, b: seq<T>, c: seq<T>, d: seq<T>)
    requires a + b == c + d && |a| == |c|
    ensures a == c && b == d
  {
    assert a == (a + b)[..|a|] && c == (c + d)[..|c|];
    assert b == (a + b)[|a|..] && d == (c + d)[|c|..];
  }

  lemma {:induction false} PlainAllJoin(a: seq<Value>, b: seq<Value>)
    ensures PlainAll(a + b) == PlainAll(a) + PlainAll(b)
  {
    if a == [] {
      assert a + b == b;
    } else {
      assert (a + b)[0] == a[0] && (a + b)[1..] == a[1..] + b;
      PlainAllJoin(a[1..], b);
    }
  }

  lemma {:induction false} PlainAllSize(a: seq<Value>)
    ensures |PlainAll(a)| == |a|
  {
    if a != [] {
      PlainAllSize(a[1..]);
    }
  }

  // ---- Running a program ---------------------------------------------------------------------------

  lemma {:induction false} ExecuteJoin(a: Code, b: Code, regs: seq<Value>)
    ensures ExecuteAll(a + b, regs) == match ExecuteAll(a, regs) case None => None case Some(r) => ExecuteAll(b, r)
  {
    if a == [] {
      assert a + b == b;
    } else {
      assert (a + b)[0] == a[0] && (a + b)[1..] == a[1..] + b;
      match Execute(a[0], regs)
      case None =>
      case Some(r) => ExecuteJoin(a[1..], b, r);
    }
  }

  /** What the leaf programs make of the leaves; None if one of them fails. */
  function Converted(leafCodes: seq<Code>, leaves: seq<Value>): Option<seq<Value>>
    requires |leafCodes| == |leaves|
  {
    if leaves == [] then Some([]) else
      match Run(leafCodes[0], leaves[0])
      case None => None
      case Some(v) =>
        match Converted(leafCodes[1..], leaves[1..])
        case None => None
        case Some(vs) => Some([v] + vs)
  }

  /** The rounds convert the leaves one by one from the top and collect them below. */
  lemma {:induction false} RoundsConvert(leafCodes: seq<Code>, done: seq<Value>, leaves: seq<Value>)
    requires |leafCodes| == |leaves|
    ensures ExecuteAll(Rounds(leafCodes), Reverse(done) + Reverse(leaves)) ==
      match Converted(leafCodes, leaves) case None => None case Some(vs) => Some(Reverse(done + vs))
  {
    hide ExecuteAll, Run;
    var regs := Reverse(done) + Reverse(leaves);
    if leaves == [] {
      assert done + [] == done && regs == Reverse(done);
      NothingToExecute(regs);
    } else {
      var rest := Reverse(done) + Reverse(leaves[1..]);
      assert regs == rest + [leaves[0]];
      ExecuteJoin([Eval(leafCodes[0]), Rotate], Rounds(leafCodes[1..]), regs);
      match Run(leafCodes[0], leaves[0])
      case None =>
        TwoStepsFail(leafCodes[0], rest, leaves[0]);
      case Some(v) =>
        TwoSteps(leafCodes[0], rest, leaves[0], v);
        ReverseAppend(done, v);
        assert [v] + rest == Reverse(done + [v]) + Reverse(leaves[1..]);
        RoundsConvert(leafCodes[1..], done + [v], leaves[1..]);
        if Converted(leafCodes[1..], leaves[1..]).Some? {
          var vs := Converted(leafCodes[1..], leaves[1..]).value;
          assert done + [v] + vs == done + ([v] + vs);
        }
    }
  }

  lemma NothingToExecute(regs: seq<Value>)
    ensures ExecuteAll([], regs) == Some(regs)
  {
  }

  lemma TwoSteps(code: Code, rest: seq<Value>, top: Value, v: Value)
    requires Run(code, top) == Some(v)
    ensures ExecuteAll([Eval(code), Rotate], rest + [top]) == Some([v] + rest)
  {
    var regs := rest + [top];
    assert regs[..|regs| - 1] == rest;
    var regs' := rest + [v];
    assert Execute(Eval(code), regs) == Some(regs');
    assert regs'[..|regs'| - 1] == rest;
    assert Execute(Rotate, regs') == Some([v] + rest);
    assert [Eval(code), Rotate][1..] == [Rotate] && [Rotate][1..] == [];
  }

  lemma TwoStepsFail(code: Code, rest: seq<Value>, top: Value)
    requires Run(code, top) == None
    ensures ExecuteAll([Eval(code), Rotate], rest + [top]) == None
  {
    var regs := rest + [top];
    assert regs[..|regs| - 1] == rest;
    assert Execute(Eval(code), regs) == None;
  }

  lemma {:induction false} ReverseAppend(s: seq<Value>, v: Value)
    ensures Reverse(s + [v]) == [v] + Reverse(s)
  {
    if s != [] {
      assert (s + [v])[1..] == s[1..] + [v];
      ReverseAppend(s[1..], v);
    }
  }

  lemma {:induction false} ReverseTwice(s: seq<Value>)
    ensures Reverse(Reverse(s)) == s
  {
    if s != [] {
      ReverseTwice(s[1..]);
      ReverseAppend(Reverse(s[1..]), s[0]);
    }
  }

  lemma {:induction false} ConvertedSize(leafCodes: seq<Code>, leaves: seq<Value>)
    requires |leafCodes| == |leaves|
    ensures Converted(leafCodes, leaves).Some? ==> |Converted(leafCodes, leaves).value| == |leaves|
  {
    hide Run;
    if leaves != [] {
      ConvertedSize(leafCodes[1..], leaves[1..]);
    }
  }

  /** Running the program for t2 on a value of t1, whose leaves are as many as those of t2: a value of t2
      that holds, at the leaves from left to right, what the leaf programs make of the leaves of v; it
      carries the type id of t2. Nothing comes out exactly if a leaf program fails. */
  lemma ProgramConverts(t1: Type, t2: Type, leafCodes: seq<Code>, v: Value)
    requires t1.Product? && t2.Product? && HasShape(t1, v) && AllAtoms(LeavesAt(t1, v))
    requires |leafCodes| == Size(t1) == Size(t2) == |LeavesAt(t1, v)|
    ensures var made := Converted(leafCodes, LeavesAt(t1, v));
      match Run(Program(t2, leafCodes), v)
      case None => made == None
      case Some(w) => w.typeId == t2.typeId && HasShape(t2, w) && made == Some(LeavesAt(t2, w))
  {
    hide Run, Execute;
    var leaves := LeavesAt(t1, v);
    var made := Converted(leafCodes, leaves);
    ExplodesToLeaves(t1, v);
    ConvertedSize(leafCodes, leaves);
    ProgramSteps(t2, leafCodes, v, leaves);
    if made.Some? {
      ReverseTwice(made.value);
      BuildsShape(t2, made.value);
      var (w, rest) := Build(t2, made.value).value;
      assert made.value[..Size(t2)] == made.value;
      RetagKeepsShape(t2, w, t2.typeId);
    }
  }

  lemma RetagKeepsShape(t: Type, w: Value, id: string)
    requires t.Product? && HasShape(t, w)
    ensures HasShape(t, Retag(w, id)) && LeavesAt(t, Retag(w, id)) == LeavesAt(t, w)
  {
  }

  /** The program as a whole: explode, convert, build, tag. */
  lemma ProgramSteps(t2: Type, leafCodes: seq<Code>, v: Value, leaves: seq<Value>)
    requires Exploded(v) == leaves && |leafCodes| == |leaves|
    ensures var made := Converted(leafCodes, leaves);
      Run(Program(t2, leafCodes), v) ==
      match made
      case None => None
      case Some(vs) => (match Build(t2, Reverse(Reverse(vs))) case None => None case Some((w, _)) => Some(Retag(w, t2.typeId)))
  {
    hide Converted, Build, Exploded;
    var code := Program(t2, leafCodes);
    var tail := [Construct(t2), SetTypeId(t2.typeId)];
    assert code == [Explode] + (Rounds(leafCodes) + tail);
    ExecuteJoin([Explode], Rounds(leafCodes) + tail, [v]);
    ExplodeStep(v);
    ExecuteJoin(Rounds(leafCodes), tail, Reverse(leaves));
    RoundsConvert(leafCodes, [], leaves);
    assert Reverse([]) + Reverse(leaves) == Reverse(leaves);
    var made := Converted(leafCodes, leaves);
    if made.Some? {
      assert [] + made.value == made.value;
      LastSteps(t2, Reverse(made.value));
    }
    hide Execute, ExecuteAll;
  }

  lemma ExplodeStep(v: Value)
    ensures ExecuteAll([Explode], [v]) == Some(Reverse(Exploded(v)))
  {
    assert [v][..0] == [];
    var regs := Reverse(Exploded(v));
    assert [] + regs == regs;
    assert Execute(Explode, [v]) == Some(regs);
    assert [Explode][1..] == [];
    NothingToExecute(regs);
    assert ExecuteAll([Explode][1..], regs) == Some(regs);
  }

  lemma LastSteps(t2: Type, regs: seq<Value>)
    ensures ExecuteAll([Construct(t2), SetTypeId(t2.typeId)], regs) ==
      match Build(t2, Reverse(regs)) case None => None case Some((w, _)) => Some([Retag(w, t2.typeId)])
  {
    hide Build, Reverse;
    var code := [Construct(t2), SetTypeId(t2.typeId)];
    assert code[1..] == [SetTypeId(t2.typeId)] && code[1..][1..] == [];
    if Build(t2, Reverse(regs)).Some? {
      var (w, rest) := Build(t2, Reverse(regs)).value;
      assert Execute(code[0], regs) == Some([w]);
      assert [w][..0] == [];
      var last := [Retag(w, t2.typeId)];
      assert [] + last == last;
      assert Execute(code[1], [w]) == Some(last);
      NothingToExecute(last);
      assert ExecuteAll(code[1..][1..], last) == Some(last);
      assert ExecuteAll(code[1..], [w]) == Some(last);
    }
  }

  // ---- There and back ------------------------------------------------------------------------------

  /** A leaf program that only sets the type id. */
  predicate TagOnly(code: Code) {
    |code| == 1 && code[0].SetTypeId?
  }

  lemma TagOnlyRuns(code: Code, v: Value)
    requires TagOnly(code)
    ensures Run(code, v) == Some(Retag(v, code[0].id))
  {
    assert [v][..0] == [];
    var last := [Retag(v, code[0].id)];
    assert [] + last == last;
    assert Execute(code[0], [v]) == Some(last);
    assert code[1..] == [];
    NothingToExecute(last);
    assert ExecuteAll(code[1..], last) == Some(last);
  }

  lemma {:induction false} TagOnlyConverts(leafCodes: seq<Code>, leaves: seq<Value>)
    requires |leafCodes| == |leaves| && AllAtoms(leaves) && forall c :: c in leafCodes ==> TagOnly(c)
    ensures Converted(leafCodes, leaves).Some?
    ensures var made := Converted(leafCodes, leaves).value;
      |made| == |leaves| && AllAtoms(made) && PlainAll(made) == PlainAll(leaves)
  {
    hide Run;
    if leaves != [] {
      TagOnlyRuns(leafCodes[0], leaves[0]);
      TagOnlyConverts(leafCodes[1..], leaves[1..]);
      var v, vs := Retag(leaves[0], leafCodes[0][0].id), Converted(leafCodes[1..], leaves[1..]).value;
      assert ([v] + vs)[1..] == vs;
      assert leaves[0].Atom?;
    }
  }

  /** Converting a value of t1 to t2 and back, with leaf programs that only set type ids, gives the value
      back, up to type ids. */
  lemma ThereAndBack(t1: Type, t2: Type, there: seq<Code>, back: seq<Code>, v: Value)
    requires t1.Product? && t2.Product? && HasShape(t1, v) && AllAtoms(LeavesAt(t1, v))
    requires |there| == |back| == Size(t1) == Size(t2)
    requires forall c :: c in there || c in back ==> TagOnly(c)
    ensures Run(Program(t2, there), v).Some?
    ensures var w := Run(Program(t2, there), v).value;
      Run(Program(t1, back), w).Some? && SameButIds(v, Run(Program(t1, back), w).value)
  {
    hide Run, HasShape, LeavesAt, Converted, Program, TagOnly, Plain, SameButIds;
    LeavesFit(t1, v);
    var leaves := LeavesAt(t1, v);
    TagOnlyConverts(there, leaves);
    ProgramConverts(t1, t2, there, v);
    var w := Run(Program(t2, there), v).value;
    LeavesFit(t2, w);
    TagOnlyConverts(back, LeavesAt(t2, w));
    ProgramConverts(t2, t1, back, w);
    LeavesDetermine(t1, Run(Program(t1, back), w).value, v);
    PlainIsSame(v, Run(Program(t1, back), w).value);
  }

  // ---- Flattening a product type -------------------------------------------------------------------

  /** flattenProductType leaves its loop variable t unset until it meets a named component. */
  datatype Flattened = Types(leaves: seq<Type>) | UnboundLocal

  function Append(a: seq<Type>, b: Flattened): Flattened {
    match b
    case Types(l) => Types(a + l)
    case UnboundLocal => UnboundLocal
  }

  /** What the function finds from the parts on, with t as its loop variable. */
  function FlattenFrom(parts: seq<Type>, t: Option<Type>): Flattened {
    if parts == [] then Types([]) else
      match parts[0]
      case Product(_, ps) =>
        (match FlattenFrom(ps, None)
         case UnboundLocal => UnboundLocal
         case Types(l) => Append(l, FlattenFrom(parts[1..], t)))
      case Named(_, _, def) =>
        if def.Product? then
          (match FlattenFrom(def.parts, None)
           case UnboundLocal => UnboundLocal
           case Types(l) => Append(l, FlattenFrom(parts[1..], Some(def))))
        else
          Append([def], FlattenFrom(parts[1..], Some(def)))
      case Basic(_, _) =>
        match t
        case None => UnboundLocal
        case Some(last) => Append([last], FlattenFrom(parts[1..], t))
  }

  /** Every part that is neither a product nor named equals the definition of the named part last met. */
  predicate Repeats(parts: seq<Type>, t: Option<Type>) {
    parts != [] ==>
      match parts[0]
      case Product(_, ps) => Repeats(ps, None) && Repeats(parts[1..], t)
      case Named(_, _, def) => (def.Product? ==> Repeats(def.parts, None)) && Repeats(parts[1..], Some(def))
      case Basic(_, _) => t == Some(parts[0]) && Repeats(parts[1..], t)
  }

  /** The function finds one type per leaf, and the right ones exactly if the product has no parts that are
      neither products nor named, except such as repeat the definition last met. */
  lemma {:induction false} FlattensToLeaves(parts: seq<Type>, t: Option<Type>)
    ensures FlattenFrom(parts, t).Types? ==> |FlattenFrom(parts, t).leaves| == |LeafTypesOf(parts)|
    ensures FlattenFrom(parts, t) == Types(LeafTypesOf(parts)) <==> Repeats(parts, t)
  {
    if parts != [] {
      var rest := parts[1..];
      match parts[0]
      case Product(_, ps) =>
        FlattensToLeaves(ps, None);
        FlattensToLeaves(rest, t);
        FlattenedParts(FlattenFrom(ps, None), LeafTypesOf(ps), FlattenFrom(rest, t), LeafTypesOf(rest));
      case Named(_, _, def) =>
        FlattensToLeaves(rest, Some(def));
        if def.Product? {
          FlattensToLeaves(def.parts, None);
          FlattenedParts(FlattenFrom(def.parts, None), LeafTypesOf(def.parts), FlattenFrom(rest, Some(def)), LeafTypesOf(rest));
        } else {
          FlattenedParts(Types([def]), [def], FlattenFrom(rest, Some(def)), LeafTypesOf(rest));
        }
      case Basic(_, _) =>
        FlattensToLeaves(rest, t);
        if t.Some? {
          FlattenedParts(Types([t.value]), [parts[0]], FlattenFrom(rest, t), LeafTypesOf(rest));
        }
    }
  }

  /** At every level the components that are neither products nor named come after a named one. */
  predicate NamedFirst(parts: seq<Type>, met: bool) {
    parts != [] ==>
      match parts[0]
      case Product(_, ps) => NamedFirst(ps, false) && NamedFirst(parts[1..], met)
      case Named(_, _, def) => (def.Product? ==> NamedFirst(def.parts, false)) && NamedFirst(parts[1..], true)
      case Basic(_, _) => met && NamedFirst(parts[1..], met)
  }

  /** The loop variable is never used before it is set exactly if a named component comes first. */
  lemma {:induction false} FlattensIfNamedFirst(parts: seq<Type>, t: Option<Type>)
    ensures FlattenFrom(parts, t).Types? <==> NamedFirst(parts, t.Some?)
  {
    if parts != [] {
      match parts[0]
      case Product(_, ps) =>
        FlattensIfNamedFirst(ps, None);
        FlattensIfNamedFirst(parts[1..], t);
      case Named(_, _, def) =>
        if def.Product? {
          FlattensIfNamedFirst(def.parts, None);
        }
        FlattensIfNamedFirst(parts[1..], Some(def));
      case Basic(_, _) => FlattensIfNamedFirst(parts[1..], t);
    }
  }

  /** A product of two built-in types, whose first component already needs the loop variable. */
  lemma BasicPairIsUnbound(t: Type)
    requires t.Basic?
    ensures FlattenFrom([t, t], None) == UnboundLocal
  {
  }

  /** A named integer followed by a string: the definition of the integer is taken for both. */
  lemma SecondBasicIsWrong(i: Type, s: Type)
    requires i.Basic? && s.Basic? && i != s
    ensures FlattenFrom([Named("", "i", i), s], None) == Types([i, i]) && LeafTypesOf([Named("", "i", i), s]) == [i, s]
  {
    var rest := [s];
    assert rest[1..] == [] && [Named("", "i", i), s][1..] == rest;
    assert FlattenFrom(rest, Some(i)) == Types([i] + []) && LeafTypesOf(rest) == [s] + [];
  }

  lemma FlattenedParts(f: Flattened, a: seq<Type>, g: Flattened, b: seq<Type>)
    requires f.Types? ==> |f.leaves| == |a|
    ensures f.Types? ==> (Append(f.leaves, g) == Types(a + b) <==> f == Types(a) && g == Types(b))
  {
    if f.Types? && Append(f.leaves, g) == Types(a + b) {
      SplitsEqually(f.leaves, g.leaves, a, b);
    }
  }

  // ---- The functions as they are written -----------------------------------------------------------

  lemma {:induction false} ExplodedJoin(a: seq<Value>, b: seq<Value>)
    ensures ExplodedAll(a + b) == ExplodedAll(a) + ExplodedAll(b)
  {
    if a == [] {
      assert a + b == b;
    } else {
      assert (a + b)[0] == a[0] && (a + b)[1..] == a[1..] + b;
      ExplodedJoin(a[1..], b);
    }
  }

  lemma ExplodedNext(reg: seq<Value>, i: nat)
    requires i < |reg|
    ensures ExplodedAll(reg[..i + 1]) == ExplodedAll(reg[..i]) + Exploded(reg[i])
  {
    assert reg[..i + 1] == reg[..i] + [reg[i]];
    ExplodedJoin(reg[..i], [reg[i]]);
    assert [reg[i]][1..] == [];
  }

  method ExplodeValues(reg: seq<Value>) returns (r: seq<Value>)
    ensures r == ExplodedAll(reg)
    decreases reg
  {
    r := [];
    var i := 0;
    while i < |reg|
      invariant 0 <= i <= |reg| && r == ExplodedAll(reg[..i])
    {
      ExplodedNext(reg, i);
      var e := reg[i];
      if e.Tuple? {
        var inner := ExplodeValues(e.elems);
        r := r + inner;
      } else {
        r := r + [e];
      }
      i := i + 1;
    }
    assert reg[..i] == reg;
  }

  function After(vs: seq<Value>, more: Option<(seq<Value>, seq<Value>)>): Option<(seq<Value>, seq<Value>)> {
    match more
    case None => None
    case Some((ws, rest)) => Some((vs + ws, rest))
  }

  lemma AfterNothing(more: Option<(seq<Value>, seq<Value>)>)
    ensures After([], more) == more
  {
    if more.Some? {
      assert [] + more.value.0 == more.value.0;
    }
  }

  lemma AfterTwice(vs: seq<Value>, w: Value, more: Option<(seq<Value>, seq<Value>)>)
    ensures After(vs, After([w], more)) == After(vs + [w], more)
  {
    if more.Some? {
      assert vs + ([w] + more.value.0) == vs + [w] + more.value.0;
    }
  }

  /** The list construct takes its leaves from. */
  class Leaves {
    var reg: seq<Value>

    constructor (reg: seq<Value>)
      ensures this.reg == reg
    {
      this.reg := reg;
    }

    method Construct(t: Type) returns (v: Option<Value>)
      modifies this
      ensures match Build(t, old(reg)) case None => v == None case Some((w, rest)) => v == Some(w) && reg == rest
      decreases t
    {
      match t
      case Product(_, parts) => v := ConstructTuple(parts);
      case Named(_, _, def) =>
        if def.Product? {
          v := ConstructTuple(def.parts);
        } else {
          v := Take();
        }
      case Basic(_, _) => v := Take();
    }

    method Take() returns (v: Option<Value>)
      modifies this
      ensures match TakeFirst(old(reg)) case None => v == None case Some((w, rest)) => v == Some(w) && reg == rest
    {
      if reg == [] {
        return None;
      }
      v := Some(reg[0]);
      reg := reg[1..];
    }

    method ConstructTuple(parts: seq<Type>) returns (v: Option<Value>)
      modifies this
      ensures match BuildTuple(parts, old(reg)) case None => v == None case Some((w, rest)) => v == Some(w) && reg == rest
      decreases parts
    {
      var vs: seq<Value> := [];
      var i := 0;
      assert parts[0..] == parts;
      AfterNothing(BuildAll(parts, reg));
      while i < |parts|
        invariant 0 <= i <= |parts|
        invariant BuildAll(parts, old(reg)) == After(vs, BuildAll(parts[i..], reg))
      {
        var w := Construct(parts[i]);
        assert parts[i..][1..] == parts[i + 1..];
        if w.None? {
          return None;
        }
        AfterTwice(vs, w.value, BuildAll(parts[i + 1..], reg));
        vs := vs + [w.value];
        i := i + 1;
      }
      assert parts[i..] == [] && vs + [] == vs;
      return Some(Tuple("", vs));
    }
  }

  method Convert(code: Code, val: Value) returns (r: Option<Value>)
    ensures r == Run(code, val)
    decreases code
  {
    var regs := [val];
    var k := 0;
    while k < |code|
      invariant 0 <= k <= |code|
      invariant ExecuteAll(code, [val]) == ExecuteAll(code[k..], regs)
    {
      var c := code[k];
      assert code[k..][1..] == code[k + 1..];
      ghost var before := regs;
      if c.Construct? {
        var leaves := new Leaves(Reverse(regs));
        var v := leaves.Construct(c.target);
        if v.None? {
          return None;
        }
        regs := [v.value];
      } else {
        if regs == [] {
          return None;
        }
        var init, top := regs[..|regs| - 1], regs[|regs| - 1];
        match c
        case SetTypeId(id) => regs := init + [Retag(top, id)];
        case Eval(inner) =>
          var v := Convert(inner, top);
          if v.None? {
            assert Execute(c, before) == None;
            return None;
          }
          regs := init + [v.value];
        case Explode =>
          var leaves := ExplodeValues([top]);
          assert leaves == Exploded(top) by {
            assert [top][1..] == [];
          }
          regs := init + Reverse(leaves);
        case Rotate => regs := [top] + init;
      }
      assert Execute(c, before) == Some(regs);
      k := k + 1;
    }
    assert code[k..] == [];
    if regs == [] {
      return None;
    }
    return Some(regs[|regs| - 1]);
  }

  method FlattenProductType(parts: seq<Type>) returns (r: Flattened)
    ensures r == FlattenFrom(parts, None)
    decreases parts
  {
    var t: Option<Type> := None;
    var l: seq<Type> := [];
    var i := 0;
    while i < |parts|
      invariant 0 <= i <= |parts|
      invariant FlattenFrom(parts, None) == Append(l, FlattenFrom(parts[i..], t))
    {
      assert parts[i..][1..] == parts[i + 1..];
      match parts[i] {
        case Product(_, ps) =>
          var inner := FlattenProductType(ps);
          if inner.UnboundLocal? {
            return UnboundLocal;
          }
          AppendTwice(l, inner.leaves, FlattenFrom(parts[i + 1..], t));
          l := l + inner.leaves;
        case Named(_, _, def) =>
          t := Some(def);
          if def.Product? {
            var inner := FlattenProductType(def.parts);
            if inner.UnboundLocal? {
              return UnboundLocal;
            }
            AppendTwice(l, inner.leaves, FlattenFrom(parts[i + 1..], t));
            l := l + inner.leaves;
          } else {
            AppendTwice(l, [def], FlattenFrom(parts[i + 1..], t));
            l := l + [def];
          }
        case Basic(_, _) =>
          if t.None? {
            return UnboundLocal;
          }
          AppendTwice(l, [t.value], FlattenFrom(parts[i + 1..], t));
          l := l + [t.value];
      }
      i := i + 1;
    }
    assert parts[i..] == [];
    return Types(l);
  }

  lemma AppendTwice(a: seq<Type>, b: seq<Type>, c: Flattened)
    ensures Append(a, Append(b, c)) == Append(a + b, c)
  {
    if c.Types? {
      assert a + (b + c.leaves) == a + b + c.leaves;
    }
  }

  // ---- Comparing two product types -----------------------------------------------------------------

  /** The programs found so far for pairs of types. */
  type Checked = map<(Type, Type), Code>

  datatype Compared = Emitted(code: Code) | Different | Unbound

  ghost predicate AllKnown(l1: seq<Type>, l2: seq<Type>, known: Checked) {
    |l1| == |l2| && forall i :: 0 <= i < |l1| ==> (l1[i], l2[i]) in known
  }

  ghost function PairCodes(l1: seq<Type>, l2: seq<Type>, known: Checked): (codes: seq<Code>)
    requires AllKnown(l1, l2, known)
    ensures |codes| == |l1| && forall i :: 0 <= i < |l1| ==> codes[i] == known[(l1[i], l2[i])]
  {
    seq(|l1|, i requires 0 <= i < |l1| => known[(l1[i], l2[i])])
  }

  lemma {:induction false} RoundsAppend(codes: seq<Code>, c: Code)
    ensures Rounds(codes + [c]) == Rounds(codes) + [Eval(c), Rotate]
  {
    if codes == [] {
      assert codes + [c] == [c] && [c][1..] == [];
    } else {
      assert (codes + [c])[0] == codes[0] && (codes + [c])[1..] == codes[1..] + [c];
      RoundsAppend(codes[1..], c);
    }
  }

  /** What the product branch of compare_types answers, with known in place of comparing the leaf types. */
  ghost function Comparison(t1: Type, t2: Type, known: Checked): Compared
    requires t1.Product? && t2.Product?
  {
    match (FlattenFrom(t1.parts, None), FlattenFrom(t2.parts, None))
    case (Types(l1), Types(l2)) => if AllKnown(l1, l2, known) then Emitted(Program(t2, PairCodes(l1, l2, known))) else Different
    case _ => Unbound
  }

  /** A comparison of products of which neither starts, at any depth, with something that is no product and
      not named gives an answer; whether a program is emitted depends on the leaf types alone where both
      products flatten to them. */
  lemma ComparesLeafTypes(t1: Type, t2: Type, known: Checked)
    requires t1.Product? && t2.Product?
    ensures Comparison(t1, t2, known) == Unbound <==> !(NamedFirst(t1.parts, false) && NamedFirst(t2.parts, false))
    ensures Repeats(t1.parts, None) && Repeats(t2.parts, None) ==>
      (Comparison(t1, t2, known).Emitted? <==> AllKnown(LeafTypes(t1), LeafTypes(t2), known))
  {
    hide FlattenFrom, NamedFirst, Repeats, LeafTypesOf;
    FlattensIfNamedFirst(t1.parts, None);
    FlattensIfNamedFirst(t2.parts, None);
    FlattensToLeaves(t1.parts, None);
    FlattensToLeaves(t2.parts, None);
  }

  /** Whatever program is emitted, run on a value of t1 it converts the leaves one by one, each with the
      program for the types found in its place, into a value of t2. These are the types of the leaves
      themselves exactly if every component of both products that is neither a product nor named repeats the
      definition met last. */
  lemma EmittedConverts(t1: Type, t2: Type, known: Checked, v: Value)
    requires t1.Product? && t2.Product? && HasShape(t1, v) && AllAtoms(LeavesAt(t1, v)) && Comparison(t1, t2, known).Emitted?
    ensures FlattenFrom(t1.parts, None).Types? && FlattenFrom(t2.parts, None).Types?
    ensures var l1, l2 := FlattenFrom(t1.parts, None).leaves, FlattenFrom(t2.parts, None).leaves;
      && AllKnown(l1, l2, known) && |l1| == |LeavesAt(t1, v)|
      && (l1 == LeafTypes(t1) && l2 == LeafTypes(t2) <==> Repeats(t1.parts, None) && Repeats(t2.parts, None))
      && var made := Converted(PairCodes(l1, l2, known), LeavesAt(t1, v));
         match Run(Comparison(t1, t2, known).code, v)
         case None => made == None
         case Some(w) => w.typeId == t2.typeId && HasShape(t2, w) && made == Some(LeavesAt(t2, w))
  {
    hide FlattenFrom, Repeats, Program, LeafTypesOf, Run, Converted, HasShape, LeavesAt;
    FlattensToLeaves(t1.parts, None);
    FlattensToLeaves(t2.parts, None);
    LeavesFit(t1, v);
    ProgramConverts(t1, t2, PairCodes(FlattenFrom(t1.parts, None).leaves, FlattenFrom(t2.parts, None).leaves, known), v);
  }

  /** The product branch of compare_types. */
  method CompareProducts(t1: Type, t2: Type, known: Checked) returns (r: Compared)
    requires t1.Product? && t2.Product?
    ensures r == Comparison(t1, t2, known)
  {
    hide FlattenFrom, Program;
    var f1 := FlattenProductType(t1.parts);
    var f2 := FlattenProductType(t2.parts);
    if f1.UnboundLocal? || f2.UnboundLocal? {
      return Unbound;
    }
    var l1, l2 := f1.leaves, f2.leaves;
    if |l1| != |l2| {
      return Different;
    }
    var funcs: seq<Code> := [];
    var i := 0;
    while i < |l1|
      invariant 0 <= i <= |l1| && |funcs| == i
      invariant forall j :: 0 <= j < i ==> (l1[j], l2[j]) in known && funcs[j] == known[(l1[j], l2[j])]
    {
      if (l1[i], l2[i]) !in known {
        return Different;
      }
      funcs := funcs + [known[(l1[i], l2[i])]];
      i := i + 1;
    }
    assert funcs == PairCodes(l1, l2, known);
    var code := EmitProgram(t2, funcs);
    return Emitted(code);
  }

  method EmitProgram(t2: Type, funcs: seq<Code>) returns (code: Code)
    ensures code == Program(t2, funcs)
  {
    code := [Explode];
    var i := 0;
    while i < |funcs|
      invariant 0 <= i <= |funcs| && code == [Explode] + Rounds(funcs[..i])
    {
      RoundsAppend(funcs[..i], funcs[i]);
      assert funcs[..i + 1] == funcs[..i] + [funcs[i]];
      code := code + [Eval(funcs[i]), Rotate];
      i := i + 1;
    }
    assert funcs[..i] == funcs;
    code := code + [Construct(t2), SetTypeId(t2.typeId)];
  }
}
