/** Tuples, templates and the untyped matcher (linda/src/linda/tuplecontainer.py). */
module TupleMatching {

  /** An element of a tuple or template: a value with its type, a type (in templates), or a nested tuple. */
  datatype Element =
    | Actual(kind: string, value: int)
    | Formal(kind: string)
    | Nested(elements: seq<Element>)

  type Tuple = seq<Element>

  /** doesMatch_notypes on one element: tup is matched against templ. */
  predicate ElementMatches(tup: Element, templ: Element) {
    match tup
    case Nested(es) => templ.Nested? && Matches(es, templ.elements)
    case Actual(k, v) => if templ.Formal? then k == templ.kind else templ == tup
    case Formal(k) => if templ.Formal? then templ.kind == "type" else false
  }

  /** doesMatch_notypes on tuples. A match answers the first argument. */
  predicate Matches(tup: Tuple, templ: Tuple) {
    |tup| == |templ| && (tup != [] ==> ElementMatches(tup[0], templ[0]) && Matches(tup[1..], templ[1..]))
  }

  /** No types: a tuple, or a template of actual values only. */
  predicate ElementIsActual(e: Element) {
    match e
    case Actual(_, _) => true
    case Formal(_) => false
    case Nested(es) => IsActual(es)
  }

  predicate IsActual(t: Tuple) {
    t != [] ==> ElementIsActual(t[0]) && IsActual(t[1..])
  }

  lemma {:induction false} ElementMatchesActual(a: Element, b: Element)
    requires ElementIsActual(b)
    ensures ElementMatches(a, b) <==> a == b
  {
    match a
    case Nested(es) =>
      if b.Nested? {
        MatchesActual(es, b.elements);
      }
    case Actual(_, _) =>
    case Formal(_) =>
  }

  /** Against actual values only, matching is equality. */
  lemma {:induction false} MatchesActual(a: Tuple, b: Tuple)
    requires IsActual(b)
    ensures Matches(a, b) <==> a == b
  {
    if |a| == |b| && a != [] {
      ElementMatchesActual(a[0], b[0]);
      MatchesActual(a[1..], b[1..]);
      assert a == [a[0]] + a[1..] && b == [b[0]] + b[1..];
    }
  }

  // ---- Matching, place by place --------------------------------------------------------------------

  /** A place in a tuple: positions through nested tuples. */
  predicate HasPlace(t: Tuple, path: seq<nat>)
    decreases |path|
  {
    path != [] && path[0] < |t| && (|path| > 1 ==> t[path[0]].Nested? && HasPlace(t[path[0]].elements, path[1..]))
  }

  function At(t: Tuple, path: seq<nat>): Element
    requires HasPlace(t, path)
    decreases |path|
  {
    if |path| == 1 then t[path[0]] else At(t[path[0]].elements, path[1..])
  }

  /** What may stand in a template where e stands in a tuple: the same value or its type; for a type the type of
      types; for a nested tuple one of the same length. */
  predicate Fits(e: Element, templ: Element) {
    || (e.Actual? && templ.Actual? && templ.kind == e.kind && templ.value == e.value)
    || (e.Actual? && templ.Formal? && templ.kind == e.kind)
    || (e.Formal? && templ.Formal? && templ.kind == "type")
    || (e.Nested? && templ.Nested? && |templ.elements| == |e.elements|)
  }

  /** Tuple and template have the same places, and what stands in each of them fits. */
  ghost predicate FitsEverywhere(t: Tuple, templ: Tuple) {
    && |t| == |templ|
    && (forall path :: HasPlace(t, path) <==> HasPlace(templ, path))
    && (forall path :: HasPlace(t, path) && HasPlace(templ, path) ==> Fits(At(t, path), At(templ, path)))
  }

  /** A tuple matches a template exactly if they agree in length and in all places. */
  lemma {:induction false} MatchesEverywhere(t: Tuple, templ: Tuple)
    ensures Matches(t, templ) <==> FitsEverywhere(t, templ)
    decreases t, 0
  {
    MatchesAtAll(t, templ);
    hide Matches, ElementMatches;
    if |t| == |templ| {
      forall i | 0 <= i < |t|
        ensures ElementMatches(t[i], templ[i]) <==> FitsFrom(t, templ, i)
      {
        ElementFits(t, templ, i);
      }
      FitsByPosition(t, templ);
    }
  }

  /** As FitsEverywhere, for the places that start at position i. */
  ghost predicate FitsFrom(t: Tuple, templ: Tuple, i: nat)
    requires i < |t| == |templ|
  {
    && (forall path :: path != [] && path[0] == i ==> (HasPlace(t, path) <==> HasPlace(templ, path)))
    && (forall path :: path != [] && path[0] == i && HasPlace(t, path) && HasPlace(templ, path) ==> Fits(At(t, path), At(templ, path)))
  }

  lemma FitsByPosition(t: Tuple, templ: Tuple)
    requires |t| == |templ|
    ensures FitsEverywhere(t, templ) <==> forall i :: 0 <= i < |t| ==> FitsFrom(t, templ, i)
  {
    hide Fits, At;
    if forall i :: 0 <= i < |t| ==> FitsFrom(t, templ, i) {
      forall path
        ensures HasPlace(t, path) <==> HasPlace(templ, path)
        ensures HasPlace(t, path) && HasPlace(templ, path) ==> Fits(At(t, path), At(templ, path))
      {
        if path != [] && path[0] < |t| {
          assert FitsFrom(t, templ, path[0]);
        }
      }
    }
  }

  lemma {:induction false} MatchesAtAll(t: Tuple, templ: Tuple)
    ensures Matches(t, templ) <==> |t| == |templ| && forall i :: 0 <= i < |t| ==> ElementMatches(t[i], templ[i])
  {
    hide ElementMatches;
    if |t| == |templ| && t != [] {
      MatchesAtAll(t[1..], templ[1..]);
      assert forall i :: 0 < i < |t| ==> t[i] == t[1..][i - 1] && templ[i] == templ[1..][i - 1];
      assert forall i :: 0 <= i < |t[1..]| ==> t[1..][i] == t[i + 1] && templ[1..][i] == templ[i + 1];
    }
  }

  lemma {:induction false} ElementFits(t: Tuple, templ: Tuple, i: nat)
    requires i < |t| == |templ|
    ensures ElementMatches(t[i], templ[i]) <==> FitsFrom(t, templ, i)
    decreases t, 0, 0
  {
    var e, m := t[i], templ[i];
    assert HasPlace(t, [i]) && HasPlace(templ, [i]) && At(t, [i]) == e && At(templ, [i]) == m;
    if e.Nested? && m.Nested? {
      MatchesEverywhere(e.elements, m.elements);
      NestedFits(t, templ, i);
    } else {
      hide Matches;
      OnlyPlace(t, templ, i);
    }
  }

  /** Where not both elements are nested there is nothing below them that both have. */
  lemma OnlyPlace(t: Tuple, templ: Tuple, i: nat)
    requires i < |t| == |templ| && !(t[i].Nested? && templ[i].Nested?)
    ensures Fits(t[i], templ[i]) <==> FitsFrom(t, templ, i)
  {
    assert [i][0] == i;
    if FitsFrom(t, templ, i) {
      assert HasPlace(t, [i]) && HasPlace(templ, [i]) && At(t, [i]) == t[i] && At(templ, [i]) == templ[i];
    }
    if Fits(t[i], templ[i]) {
      forall path | path != [] && path[0] == i
        ensures HasPlace(t, path) <==> HasPlace(templ, path)
        ensures HasPlace(t, path) && HasPlace(templ, path) ==> Fits(At(t, path), At(templ, path))
      {
      }
    }
  }

  lemma NestedFits(t: Tuple, templ: Tuple, i: nat)
    requires i < |t| == |templ| && t[i].Nested? && templ[i].Nested?
    ensures FitsEverywhere(t[i].elements, templ[i].elements) <==> FitsFrom(t, templ, i)
  {
    var es, ms := t[i].elements, templ[i].elements;
    forall path: seq<nat>
      ensures var p := [i] + path;
        && (path != [] ==> (HasPlace(t, p) <==> HasPlace(es, path)) && (HasPlace(templ, p) <==> HasPlace(ms, path)))
        && (path != [] && HasPlace(es, path) ==> At(t, p) == At(es, path))
        && (path != [] && HasPlace(ms, path) ==> At(templ, p) == At(ms, path))
    {
      assert ([i] + path)[1..] == path;
    }
    if FitsFrom(t, templ, i) {
      assert HasPlace(t, [i]) && HasPlace(templ, [i]) && At(t, [i]) == t[i] && At(templ, [i]) == templ[i];
      assert Fits(t[i], templ[i]);
      forall path
        ensures HasPlace(es, path) <==> HasPlace(ms, path)
        ensures HasPlace(es, path) && HasPlace(ms, path) ==> Fits(At(es, path), At(ms, path))
      {
        var p := [i] + path;
        assert path != [] ==> p != [] && p[0] == i;
      }
    }
    if FitsEverywhere(es, ms) {
      forall path | path != [] && path[0] == i
        ensures HasPlace(t, path) <==> HasPlace(templ, path)
        ensures HasPlace(t, path) && HasPlace(templ, path) ==> Fits(At(t, path), At(templ, path))
      {
        if |path| > 1 {
          assert path == [i] + path[1..];
        }
      }
    }
  }

  /** Where a matching template has a type, the tuple has a value of that type; where it has a value, the same. */
  lemma TypesAreKept(t: Tuple, templ: Tuple, path: seq<nat>)
    requires Matches(t, templ) && HasPlace(templ, path)
    ensures HasPlace(t, path)
    ensures var e, m := At(t, path), At(templ, path);
      && (m.Formal? ==> (e.Actual? && e.kind == m.kind) || (e.Formal? && m.kind == "type"))
      && (m.Actual? ==> e == m)
  {
    MatchesEverywhere(t, templ);
  }

  /** The waiter check calls the matcher with its arguments the other way round. On a tuple of actual values
      the two ways agree exactly if the template is that tuple or does not match it at all; for templates of
      actual values they always agree. */
  lemma SwappedMatcherAgrees(tup: Tuple, templ: Tuple)
    requires IsActual(tup)
    ensures (Matches(templ, tup) <==> Matches(tup, templ)) <==> templ == tup || !Matches(tup, templ)
    ensures IsActual(templ) ==> (Matches(templ, tup) <==> Matches(tup, templ))
  {
    MatchesActual(templ, tup);
    MatchesActual(tup, tup);
    if IsActual(templ) {
      MatchesActual(tup, templ);
    }
  }

  /** A template with a type that does match: (int,) and (5,). */
  lemma SwappedMatcherDiffers()
    ensures var tup, templ := [Actual("int", 5)], [Formal("int")];
      IsActual(tup) && Matches(tup, templ) && !Matches(templ, tup)
  {
  }

  // ---- The container -------------------------------------------------------------------------------

  /** The stored tuples that match, in order. */
  function Matching(contain: seq<Tuple>, template: Tuple): seq<Tuple> {
    if contain == [] then [] else
      (if Matches(contain[0], template) then [contain[0]] else []) + Matching(contain[1..], template)
  }

  function NotMatching(contain: seq<Tuple>, template: Tuple): seq<Tuple> {
    if contain == [] then [] else
      (if Matches(contain[0], template) then [] else [contain[0]]) + NotMatching(contain[1..], template)
  }

  /** The tuples without the first that equals t. */
  function WithoutFirst(contain: seq<Tuple>, t: Tuple): seq<Tuple> {
    if contain == [] then [] else if contain[0] == t then contain[1..] else [contain[0]] + WithoutFirst(contain[1..], t)
  }

  ghost predicate AllActual(contain: seq<Tuple>) {
    forall t :: t in contain ==> IsActual(t)
  }

  lemma {:induction false} WithoutFirstRemoves(contain: seq<Tuple>, t: Tuple)
    ensures t in contain ==> multiset(WithoutFirst(contain, t)) == multiset(contain) - multiset{t}
    ensures t !in contain ==> WithoutFirst(contain, t) == contain
  {
    if contain != [] {
      var head, rest := contain[0], contain[1..];
      assert contain == [head] + rest;
      if head != t {
        WithoutFirstRemoves(rest, t);
      }
    }
  }

  lemma {:induction false} MatchingSplits(contain: seq<Tuple>, template: Tuple)
    ensures multiset(contain) == multiset(Matching(contain, template)) + multiset(NotMatching(contain, template))
    ensures forall t :: t in Matching(contain, template) <==> t in contain && Matches(t, template)
    ensures forall t :: t in NotMatching(contain, template) <==> t in contain && !Matches(t, template)
  {
    hide Matches;
    if contain != [] {
      assert contain == [contain[0]] + contain[1..];
      MatchingSplits(contain[1..], template);
    }
  }

  /** part holds the elements of all at the indices in idx, in order. */
  ghost predicate Selects(all: seq<Tuple>, idx: seq<nat>, part: seq<Tuple>) {
    && |idx| == |part|
    && (forall i :: 0 <= i < |idx| ==> idx[i] < |all| && part[i] == all[idx[i]])
    && (forall i, j :: 0 <= i < j < |idx| ==> idx[i] < idx[j])
  }

  /** The indices of a list one longer, with the first if it is chosen. */
  function Shifted(idx: seq<nat>, first: bool): seq<nat> {
    (if first then [0] else []) + seq(|idx|, i requires 0 <= i < |idx| => idx[i] + 1)
  }

  lemma ShiftedAt(idx: seq<nat>, first: bool, i: nat)
    requires i < |Shifted(idx, first)|
    ensures |Shifted(idx, first)| == |idx| + if first then 1 else 0
    ensures Shifted(idx, first)[i] == if first && i == 0 then 0 else idx[if first then i - 1 else i] + 1
  {
  }

  lemma ShiftedHas(idx: seq<nat>, first: bool, j: nat)
    ensures j in Shifted(idx, first) <==> if j == 0 then first else j - 1 in idx
  {
    var more := Shifted(idx, first);
    if j > 0 && j - 1 in idx {
      var i :| 0 <= i < |idx| && idx[i] == j - 1;
      ShiftedAt(idx, first, if first then i + 1 else i);
    }
    if j == 0 && first {
      ShiftedAt(idx, first, 0);
    }
    if i :| 0 <= i < |more| && more[i] == j {
      ShiftedAt(idx, first, i);
    }
  }

  lemma SelectsMore(all: seq<Tuple>, idx: seq<nat>, part: seq<Tuple>, first: bool)
    requires all != [] && Selects(all[1..], idx, part)
    ensures Selects(all, Shifted(idx, first), (if first then [all[0]] else []) + part)
    ensures forall j: nat :: j in Shifted(idx, first) <==> (if j == 0 then first else j - 1 in idx)
  {
    var more, d := Shifted(idx, first), if first then 1 else 0;
    forall j: nat
      ensures j in more <==> (if j == 0 then first else j - 1 in idx)
    {
      ShiftedHas(idx, first, j);
    }
    forall i | 0 <= i < |more|
      ensures more[i] == if first && i == 0 then 0 else idx[i - d] + 1
    {
      ShiftedAt(idx, first, i);
    }
    assert |more| == |idx| + d;
    hide Shifted;
  }

  /** The matching tuples are those at the indices where the template fits, in order; the others likewise. */
  lemma {:induction false} MatchingSelects(contain: seq<Tuple>, template: Tuple) returns (idx: seq<nat>, others: seq<nat>)
    ensures Selects(contain, idx, Matching(contain, template)) && Selects(contain, others, NotMatching(contain, template))
    ensures forall j: nat :: j in idx <==> j < |contain| && FitsEverywhere(contain[j], template)
    ensures forall j: nat :: j in others <==> j < |contain| && !FitsEverywhere(contain[j], template)
  {
    hide Matches, FitsEverywhere, Shifted, Selects;
    if contain == [] {
      NoneSelected();
      return [], [];
    }
    MatchesEverywhere(contain[0], template);
    var i, o := MatchingSelects(contain[1..], template);
    var first := Matches(contain[0], template);
    SelectsMore(contain, i, Matching(contain[1..], template), first);
    SelectsMore(contain, o, NotMatching(contain[1..], template), !first);
    idx, others := Shifted(i, first), Shifted(o, !first);
    assert forall j: nat :: 0 < j < |contain| ==> contain[j] == contain[1..][j - 1];
  }

  lemma NoneSelected()
    ensures Selects([], [], [])
  {
  }

  /** Without its first occurrence: what is before and after it, in order. */
  lemma {:induction false} WithoutFirstAt(contain: seq<Tuple>, t: Tuple, i: nat)
    requires i < |contain| && contain[i] == t && forall j :: 0 <= j < i ==> contain[j] != t
    ensures WithoutFirst(contain, t) == contain[..i] + contain[i + 1..]
  {
    if i > 0 {
      WithoutFirstAt(contain[1..], t, i - 1);
      assert contain[..i] == [contain[0]] + contain[1..][..i - 1] && contain[1..][i..] == contain[i + 1..];
    }
  }

  function WithoutAll(contain: seq<Tuple>, ts: seq<Tuple>): seq<Tuple>
    decreases ts
  {
    if ts == [] then contain else WithoutAll(WithoutFirst(contain, ts[0]), ts[1..])
  }

  lemma {:induction false} WithoutAllSkips(head: Tuple, rest: seq<Tuple>, ts: seq<Tuple>)
    requires forall t :: t in ts ==> t != head
    ensures WithoutAll([head] + rest, ts) == [head] + WithoutAll(rest, ts)
    decreases ts
  {
    if ts != [] {
      assert ts[0] in ts && forall t :: t in ts[1..] ==> t in ts;
      assert ([head] + rest)[1..] == rest;
      WithoutAllSkips(head, WithoutFirst(rest, ts[0]), ts[1..]);
    }
  }

  /** Deleting the matching tuples one by one, each time the first equal one, leaves the tuples that do not
      match, in their order. */
  lemma {:induction false} DeletingMatches(contain: seq<Tuple>, template: Tuple)
    ensures WithoutAll(contain, Matching(contain, template)) == NotMatching(contain, template)
  {
    hide Matches;
    if contain != [] {
      var head, rest := contain[0], contain[1..];
      assert contain == [head] + rest;
      DeletingMatches(rest, template);
      var found := Matching(rest, template);
      if Matches(head, template) {
        assert Matching(contain, template) == [head] + found;
        assert ([head] + found)[1..] == found;
      } else {
        MatchingSplits(rest, template);
        assert Matching(contain, template) == found;
        WithoutAllSkips(head, rest, found);
      }
    }
  }

  /** The tuples a traversal of matchTuples yields. */
  method MatchTuples(contain: seq<Tuple>, template: Tuple) returns (found: seq<Tuple>, ghost idx: seq<nat>)
    ensures found == Matching(contain, template) && Selects(contain, idx, found)
    ensures forall j: nat :: j in idx <==> j < |contain| && FitsEverywhere(contain[j], template)
  {
    hide Matches, FitsEverywhere, Selects;
    ghost var others;
    idx, others := MatchingSelects(contain, template);
    found := [];
    var i := 0;
    while i < |contain|
      invariant 0 <= i <= |contain|
      invariant Matching(contain, template) == found + Matching(contain[i..], template)
    {
      assert contain[i..][1..] == contain[i + 1..];
      var t := contain[i];
      if |template| == |t| && Matches(t, template) {
        found := found + [t];
      }
      LengthsDiffer(t, template);
      i := i + 1;
    }
  }

  /** The first tuple that matches, if any. */
  method MatchOneTuple(contain: seq<Tuple>, template: Tuple) returns (found: bool, tup: Tuple)
    ensures found <==> Matching(contain, template) != []
    ensures found ==> tup == Matching(contain, template)[0]
    ensures if found then exists i: nat :: IsFirstMatch(contain, template, i) && tup == contain[i]
            else forall t :: t in contain ==> !FitsEverywhere(t, template)
  {
    hide Matches, FitsEverywhere;
    var i := 0;
    while i < |contain|
      invariant 0 <= i <= |contain|
      invariant Matching(contain, template) == Matching(contain[i..], template)
      invariant forall j :: 0 <= j < i ==> !FitsEverywhere(contain[j], template)
    {
      assert contain[i..][1..] == contain[i + 1..];
      MatchesEverywhere(contain[i], template);
      if |template| == |contain[i]| && Matches(contain[i], template) {
        assert IsFirstMatch(contain, template, i);
        return true, contain[i];
      }
      LengthsDiffer(contain[i], template);
      i := i + 1;
    }
    return false, [];
  }

  ghost predicate IsFirstMatch(contain: seq<Tuple>, template: Tuple, i: nat) {
    i < |contain| && FitsEverywhere(contain[i], template) && forall j :: 0 <= j < i ==> !FitsEverywhere(contain[j], template)
  }

  /** Removes the first tuple that matches tup. */
  method Delete(contain: seq<Tuple>, tup: Tuple) returns (rest: seq<Tuple>)
    requires IsActual(tup)
    ensures rest == WithoutFirst(contain, tup)
  {
    hide Matches;
    var i := 0;
    while i < |contain|
      invariant 0 <= i <= |contain|
      invariant WithoutFirst(contain, tup) == contain[..i] + WithoutFirst(contain[i..], tup)
    {
      assert contain[i..][1..] == contain[i + 1..];
      MatchesActual(contain[i], tup);
      if |tup| == |contain[i]| && Matches(contain[i], tup) {
        return contain[..i] + contain[i + 1..];
      }
      i := i + 1;
    }
    assert contain[..i] == contain;
    return contain;
  }

  lemma LengthsDiffer(a: Tuple, b: Tuple)
    ensures Matches(a, b) ==> |a| == |b|
  {
  }
}
