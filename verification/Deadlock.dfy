/** The local deadlock test (isLocallyDeadlocked in linda/src/linda/tuplespace.py): a breadth-first walk,
    without memory, over whoever holds references to a tuplespace. */
module Deadlock {
  import opened Graphs
  import opened Pigeonhole
  import opened Options

  /** The universal tuplespace, a tuplespace, a process or a thread. */
  datatype Holder = Uts | Space(id: nat) | Process(pid: nat) | Thread(owner: nat, number: nat)

  /** Spaces lead to the holders of references to them, processes to their threads. */
  type Holders = map<Holder, seq<Holder>>

  /** The test answers, or fails because a space or a process it comes to is not there. */
  datatype Outcome = Answer(deadlocked: bool) | KeyError

  ghost predicate Wellformed(g: Holders) {
    forall x :: x in g ==> x.Space? || x.Process?
  }

  /** A holder that shows that there is no deadlock. */
  predicate Active(blocked: set<Holder>, x: Holder) {
    x.Uts? || (x.Thread? && x !in blocked)
  }

  predicate Missing(g: Holders, x: Holder) {
    (x.Space? || x.Process?) && x !in g
  }

  ghost function Actives(blocked: set<Holder>): iset<Holder> {
    iset x | Active(blocked, x)
  }

  ghost function Absent(g: Holders): iset<Holder> {
    iset x | Missing(g, x)
  }

  ghost predicate ReachesAny(g: Holders, s: iset<Holder>, x: Holder) {
    exists y :: Reaches(g, x, y) && y in s
  }

  ghost predicate OnCycle(g: Holders, y: Holder) {
    exists z :: Edge(g, y, z) && Reaches(g, z, y)
  }

  ghost predicate ReachesCycle(g: Holders, x: Holder) {
    exists y :: Reaches(g, x, y) && OnCycle(g, y)
  }

  /** The outcome after at most k rounds of the loop, if there is one by then. */
  function Rounds(g: Holders, blocked: set<Holder>, refs: seq<Holder>, threads: set<Holder>, k: nat): Option<Outcome>
    decreases k
  {
    if refs == [] then Some(Answer(true))
    else if k == 0 then None
    else
      var r, rest := refs[0], refs[1..];
      if r.Uts? then Some(Answer(false))
      else if r.Thread? then
        if r in threads then Rounds(g, blocked, rest, threads, k - 1)
        else if r in blocked then Rounds(g, blocked, rest, threads + {r}, k - 1)
        else Some(Answer(false))
      else if r !in g then Some(KeyError)
      else Rounds(g, blocked, rest + g[r], threads, k - 1)
  }

  // ---- Paths ---------------------------------------------------------------------------------------

  lemma FirstEdge(g: Holders, a: Holder, b: Holder) returns (z: Holder)
    requires Reaches(g, a, b) && a != b
    ensures Edge(g, a, z) && Reaches(g, z, b)
  {
    var p :| Connects(g, p, a, b);
    var q := p[1..];
    z := q[0];
    assert Edge(g, p[0], p[0 + 1]);
    forall i | 0 <= i < |q| - 1
      ensures Edge(g, q[i], q[i + 1])
    {
      assert Edge(g, p[i + 1], p[i + 1 + 1]);
    }
    assert Connects(g, q, z, b);
  }

  lemma ReachesAnyThrough(g: Holders, s: iset<Holder>, x: Holder)
    ensures ReachesAny(g, s, x) <==> x in s || exists z :: Edge(g, x, z) && ReachesAny(g, s, z)
  {
    hide Reaches;
    if x in s {
      ReachesSelf(g, x);
    } else if ReachesAny(g, s, x) {
      var y :| Reaches(g, x, y) && y in s;
      var z := FirstEdge(g, x, y);
      assert ReachesAny(g, s, z);
    }
    if z :| Edge(g, x, z) && ReachesAny(g, s, z) {
      var y :| Reaches(g, z, y) && y in s;
      ReachesFirst(g, x, z, y);
    }
  }

  lemma CycleThrough(g: Holders, x: Holder)
    ensures ReachesCycle(g, x) <==> exists z :: Edge(g, x, z) && ReachesCycle(g, z)
  {
    hide Reaches;
    if ReachesCycle(g, x) {
      var y :| Reaches(g, x, y) && OnCycle(g, y);
      if y == x {
        var z :| Edge(g, x, z) && Reaches(g, z, x);
        assert ReachesCycle(g, z);
      } else {
        var z := FirstEdge(g, x, y);
        assert ReachesCycle(g, z);
      }
    }
    if z :| Edge(g, x, z) && ReachesCycle(g, z) {
      var y :| Reaches(g, z, y) && OnCycle(g, y);
      ReachesFirst(g, x, z, y);
    }
  }

  // ---- What an outcome means -----------------------------------------------------------------------

  ghost predicate AnyReaches(g: Holders, s: iset<Holder>, refs: seq<Holder>) {
    exists x :: x in refs && ReachesAny(g, s, x)
  }

  ghost predicate AnyActive(g: Holders, blocked: set<Holder>, refs: seq<Holder>) {
    AnyReaches(g, Actives(blocked), refs)
  }

  ghost predicate AnyMissing(g: Holders, refs: seq<Holder>) {
    AnyReaches(g, Absent(g), refs)
  }

  ghost predicate AnyCycle(g: Holders, refs: seq<Holder>) {
    exists x :: x in refs && ReachesCycle(g, x)
  }

  /** What is left to look at after one round. */
  function Next(g: Holders, refs: seq<Holder>): seq<Holder>
    requires refs != []
  {
    refs[1..] + (if refs[0] in g then g[refs[0]] else [])
  }

  /** A round does not lose or add what can be reached, apart from the holder looked at, nor cycles. */
  lemma RoundKeeps(g: Holders, s: iset<Holder>, refs: seq<Holder>)
    requires refs != []
    ensures AnyReaches(g, s, refs) <==> refs[0] in s || AnyReaches(g, s, Next(g, refs))
    ensures AnyCycle(g, refs) <==> AnyCycle(g, Next(g, refs))
  {
    hide Reaches, ReachesAny, ReachesCycle;
    var r, rest := refs[0], refs[1..];
    assert refs == [r] + rest;
    ReachesAnyThrough(g, s, r);
    CycleThrough(g, r);
    var zs := if r in g then g[r] else [];
    assert forall z :: Edge(g, r, z) <==> z in zs;
  }

  /** An outcome is right: false only if something active can be reached, an error only if something missing
      can, and true only if neither can, nor a cycle. */
  lemma {:induction false} AnswersAreRight(g: Holders, blocked: set<Holder>, refs: seq<Holder>, threads: set<Holder>, k: nat)
    requires Wellformed(g) && threads <= blocked
    ensures var o := Rounds(g, blocked, refs, threads, k);
      && (o == Some(Answer(false)) ==> AnyActive(g, blocked, refs))
      && (o == Some(KeyError) ==> AnyMissing(g, refs))
      && (o == Some(Answer(true)) ==> !AnyActive(g, blocked, refs) && !AnyMissing(g, refs) && !AnyCycle(g, refs))
    decreases k
  {
    if refs != [] && k > 0 {
      var r := refs[0];
      RoundKeeps(g, Actives(blocked), refs);
      RoundKeeps(g, Absent(g), refs);
      hide AnyReaches, AnyCycle;
      if !Active(blocked, r) && !Missing(g, r) {
        assert r.Thread? ==> Next(g, refs) == refs[1..];
        AnswersAreRight(g, blocked, Next(g, refs), if r.Thread? && r !in threads then threads + {r} else threads, k - 1);
      }
    }
  }

  // ---- When there is an outcome --------------------------------------------------------------------

  lemma {:induction false} MoreRounds(g: Holders, blocked: set<Holder>, refs: seq<Holder>, threads: set<Holder>, k: nat, m: nat)
    requires k <= m && Rounds(g, blocked, refs, threads, k).Some?
    ensures Rounds(g, blocked, refs, threads, m) == Rounds(g, blocked, refs, threads, k)
    decreases k
  {
    if refs != [] && k > 0 {
      var r, rest := refs[0], refs[1..];
      if r.Thread? {
        if r in threads {
          MoreRounds(g, blocked, rest, threads, k - 1, m - 1);
        } else if r in blocked {
          MoreRounds(g, blocked, rest, threads + {r}, k - 1, m - 1);
        }
      } else if !r.Uts? && r in g {
        MoreRounds(g, blocked, Next(g, refs), threads, k - 1, m - 1);
      }
    }
  }

  /** With something active or missing at the end of a path from the i-th reference, there is an outcome. */
  lemma {:induction false} FindsStop(g: Holders, blocked: set<Holder>, refs: seq<Holder>, threads: set<Holder>, i: nat, path: seq<Holder>) returns (k: nat)
    requires Wellformed(g) && threads <= blocked && i < |refs| && IsPath(g, path) && path[0] == refs[i]
    requires var last := path[|path| - 1]; Active(blocked, last) || Missing(g, last)
    ensures Rounds(g, blocked, refs, threads, k).Some?
    decreases |path|, i
  {
    var r := refs[0];
    if Active(blocked, r) || Missing(g, r) {
      return 1;
    }
    var threads' := if r.Thread? && r !in threads then threads + {r} else threads;
    assert r.Thread? ==> Next(g, refs) == refs[1..];
    var more: nat;
    if i > 0 {
      assert Next(g, refs)[i - 1] == refs[i];
      more := FindsStop(g, blocked, Next(g, refs), threads', i - 1, path);
    } else {
      assert |path| > 1;
      assert Edge(g, path[0], path[0 + 1]);
      var j :| 0 <= j < |g[r]| && g[r][j] == path[1];
      assert Next(g, refs)[|refs| - 1 + j] == path[1];
      forall m | 0 <= m < |path[1..]| - 1
        ensures Edge(g, path[1..][m], path[1..][m + 1])
      {
        assert Edge(g, path[m + 1], path[m + 1 + 1]);
      }
      more := FindsStop(g, blocked, Next(g, refs), threads', |refs| - 1 + j, path[1..]);
    }
    k := more + 1;
  }

  lemma EndsIfReached(g: Holders, blocked: set<Holder>, refs: seq<Holder>, s: iset<Holder>) returns (k: nat)
    requires Wellformed(g) && AnyReaches(g, s, refs) && forall y :: y in s ==> Active(blocked, y) || Missing(g, y)
    ensures Rounds(g, blocked, refs, {}, k).Some?
  {
    var x :| x in refs && ReachesAny(g, s, x);
    var y :| Reaches(g, x, y) && y in s;
    var path :| Connects(g, path, x, y);
    var i :| 0 <= i < |refs| && refs[i] == x;
    k := FindsStop(g, blocked, refs, {}, i, path);
  }

  ghost function Reached(g: Holders, x: Holder): set<Holder> {
    set y | y in g && Reaches(g, x, y)
  }

  /** Off cycles, every step leads to where less can be reached. */
  lemma LessReached(g: Holders, x: Holder, z: Holder)
    requires !ReachesCycle(g, x) && Edge(g, x, z)
    ensures !ReachesCycle(g, z) && |Reached(g, z)| < |Reached(g, x)|
  {
    hide Reaches;
    CycleThrough(g, x);
    ReachesSelf(g, x);
    assert !Reaches(g, z, x) by {
      assert !OnCycle(g, x);
    }
    forall y | y in Reached(g, z)
      ensures y in Reached(g, x) - {x}
    {
      ReachesFirst(g, x, z, y);
    }
    SubsetSize(Reached(g, z), Reached(g, x) - {x});
  }

  /** How many rounds looking at x leads to: one for each path that starts there. */
  ghost function Weight(g: Holders, x: Holder): nat
    requires !ReachesCycle(g, x)
    decreases |Reached(g, x)|, 1, 0
  {
    if x in g then
      assert forall z :: z in g[x] ==> Edge(g, x, z);
      1 + WeightOfNext(g, x, g[x])
    else 1
  }

  ghost function WeightOfNext(g: Holders, x: Holder, zs: seq<Holder>): nat
    requires !ReachesCycle(g, x) && forall z :: z in zs ==> Edge(g, x, z)
    decreases |Reached(g, x)|, 0, |zs|
  {
    if zs == [] then 0 else
      assert zs[0] in zs;
      LessReached(g, x, zs[0]);
      Weight(g, zs[0]) + WeightOfNext(g, x, zs[1..])
  }

  ghost function WeightOf(g: Holders, refs: seq<Holder>): nat
    requires forall x :: x in refs ==> !ReachesCycle(g, x)
  {
    if refs == [] then 0 else Weight(g, refs[0]) + WeightOf(g, refs[1..])
  }

  lemma {:induction false} WeightJoin(g: Holders, a: seq<Holder>, b: seq<Holder>)
    requires forall x :: x in a + b ==> !ReachesCycle(g, x)
    ensures (forall x :: x in a ==> !ReachesCycle(g, x)) && forall x :: x in b ==> !ReachesCycle(g, x)
    ensures WeightOf(g, a + b) == WeightOf(g, a) + WeightOf(g, b)
  {
    hide ReachesCycle, Weight;
    assert forall x :: x in a || x in b ==> x in a + b;
    if a == [] {
      assert a + b == b;
    } else {
      assert (a + b)[1..] == a[1..] + b && (a + b)[0] == a[0];
      WeightJoin(g, a[1..], b);
    }
  }

  lemma {:induction false} WeightOfNextIs(g: Holders, x: Holder, zs: seq<Holder>)
    requires !ReachesCycle(g, x) && forall z :: z in zs ==> Edge(g, x, z)
    ensures (forall z :: z in zs ==> !ReachesCycle(g, z)) && WeightOfNext(g, x, zs) == WeightOf(g, zs)
  {
    forall z | z in zs
      ensures !ReachesCycle(g, z)
    {
      LessReached(g, x, z);
    }
    hide ReachesCycle, Weight;
    if zs != [] {
      WeightOfNextIs(g, x, zs[1..]);
    }
  }

  /** Each round lowers the weight of what is left by one. */
  lemma RoundLowersWeight(g: Holders, refs: seq<Holder>)
    requires refs != [] && !AnyCycle(g, refs)
    ensures !AnyCycle(g, Next(g, refs)) && WeightOf(g, Next(g, refs)) + 1 == WeightOf(g, refs)
  {
    var r, rest := refs[0], refs[1..];
    assert r in refs && forall x :: x in rest ==> x in refs;
    var zs := if r in g then g[r] else [];
    assert forall z :: z in zs ==> Edge(g, r, z);
    WeightOfNextIs(g, r, zs);
    hide ReachesCycle;
    assert forall x :: x in rest + zs ==> !ReachesCycle(g, x);
    WeightJoin(g, rest, zs);
  }

  /** Without cycles, there is an outcome within as many rounds as the weight. */
  lemma {:induction false} EndsWithoutCycles(g: Holders, blocked: set<Holder>, refs: seq<Holder>, threads: set<Holder>)
    requires Wellformed(g) && !AnyCycle(g, refs)
    ensures forall x :: x in refs ==> !ReachesCycle(g, x)
    ensures Rounds(g, blocked, refs, threads, WeightOf(g, refs)).Some?
    decreases WeightOf(g, refs)
  {
    if refs != [] {
      var r := refs[0];
      RoundLowersWeight(g, refs);
      hide ReachesCycle, WeightOf;
      assert r.Thread? ==> Next(g, refs) == refs[1..];
      EndsWithoutCycles(g, blocked, Next(g, refs), if r.Thread? && r !in threads then threads + {r} else threads);
    }
  }

  ghost predicate Ends(g: Holders, blocked: set<Holder>, refs: seq<Holder>) {
    exists k :: Rounds(g, blocked, refs, {}, k).Some?
  }

  ghost predicate EndsWith(g: Holders, blocked: set<Holder>, refs: seq<Holder>, o: Outcome) {
    exists k :: Rounds(g, blocked, refs, {}, k) == Some(o)
  }

  /** The outcomes, exactly: there is one if and only if something active or missing can be reached, or no cycle
      can; true if and only if none of these can be reached; and if only something active, or only something
      missing, can be reached, then it is false, or an error. With a cycle and neither the loop never ends. */
  lemma AnswersExactly(g: Holders, blocked: set<Holder>, refs: seq<Holder>)
    requires Wellformed(g)
    ensures Ends(g, blocked, refs) <==> AnyActive(g, blocked, refs) || AnyMissing(g, refs) || !AnyCycle(g, refs)
    ensures EndsWith(g, blocked, refs, Answer(true)) <==> !AnyActive(g, blocked, refs) && !AnyMissing(g, refs) && !AnyCycle(g, refs)
    ensures !AnyMissing(g, refs) ==> (EndsWith(g, blocked, refs, Answer(false)) <==> AnyActive(g, blocked, refs))
    ensures !AnyActive(g, blocked, refs) ==> (EndsWith(g, blocked, refs, KeyError) <==> AnyMissing(g, refs))
  {
    hide Rounds, AnyReaches, AnyCycle, Wellformed;
    OutcomesAreRight(g, blocked, refs);
    if AnyActive(g, blocked, refs) {
      var k := EndsIfReached(g, blocked, refs, Actives(blocked));
    } else if AnyMissing(g, refs) {
      var k := EndsIfReached(g, blocked, refs, Absent(g));
    } else if !AnyCycle(g, refs) {
      EndsWithoutCycles(g, blocked, refs, {});
      assert Ends(g, blocked, refs);
    }
    if Ends(g, blocked, refs) {
      var k :| Rounds(g, blocked, refs, {}, k).Some?;
      SomeOutcome(Rounds(g, blocked, refs, {}, k));
    }
  }

  lemma OutcomesAreRight(g: Holders, blocked: set<Holder>, refs: seq<Holder>)
    requires Wellformed(g)
    ensures EndsWith(g, blocked, refs, Answer(false)) ==> AnyActive(g, blocked, refs)
    ensures EndsWith(g, blocked, refs, KeyError) ==> AnyMissing(g, refs)
    ensures EndsWith(g, blocked, refs, Answer(true)) ==> !AnyActive(g, blocked, refs) && !AnyMissing(g, refs) && !AnyCycle(g, refs)
  {
    hide Rounds, AnyReaches, AnyCycle, Wellformed;
    forall k
      ensures Rounds(g, blocked, refs, {}, k) == Some(Answer(false)) ==> AnyActive(g, blocked, refs)
      ensures Rounds(g, blocked, refs, {}, k) == Some(KeyError) ==> AnyMissing(g, refs)
      ensures Rounds(g, blocked, refs, {}, k) == Some(Answer(true)) ==> !AnyActive(g, blocked, refs) && !AnyMissing(g, refs) && !AnyCycle(g, refs)
    {
      AnswersAreRight(g, blocked, refs, {}, k);
    }
  }

  lemma SomeOutcome(o: Option<Outcome>)
    requires o.Some?
    ensures o == Some(Answer(true)) || o == Some(Answer(false)) || o == Some(KeyError)
  {
    match o.value
    case Answer(d) => assert o == Some(Answer(d)) && (d || !d);
    case KeyError =>
  }

  // ---- The nearer of the two -----------------------------------------------------------------------

  /** Something in s is at most n steps from x. */
  ghost predicate Within(g: Holders, s: iset<Holder>, x: Holder, n: nat)
    decreases n
  {
    x in s || (n > 0 && exists z :: Edge(g, x, z) && Within(g, s, z, n - 1))
  }

  /** Something in s is at most n steps from one of a, or one less from one of b. */
  ghost predicate Near(g: Holders, s: iset<Holder>, a: seq<Holder>, b: seq<Holder>, n: nat) {
    (exists x :: x in a && Within(g, s, x, n)) || (n > 0 && exists x :: x in b && Within(g, s, x, n - 1))
  }

  /** Looking at a holder that is not in s leaves the distance to s as it was. */
  lemma NearNext(g: Holders, s: iset<Holder>, r: Holder, a: seq<Holder>, b: seq<Holder>, n: nat)
    requires r !in s
    ensures Near(g, s, [r] + a, b, n) <==> Near(g, s, a, b + (if r in g then g[r] else []), n)
  {
    var zs := if r in g then g[r] else [];
    assert forall z :: Edge(g, r, z) <==> z in zs;
    assert Within(g, s, r, n) <==> n > 0 && exists z :: Edge(g, r, z) && Within(g, s, z, n - 1);
    hide Within, Edge;
    assert forall x :: x in [r] + a <==> x == r || x in a;
    assert forall x :: x in b + zs <==> x in b || x in zs;
  }

  /** The walk, in front of which a is left of one level and b is already there of the next, finds what is
      nearer. */
  lemma {:induction false} NearestFirst(g: Holders, blocked: set<Holder>, a: seq<Holder>, b: seq<Holder>, threads: set<Holder>, k: nat, n: nat)
    requires Wellformed(g) && threads <= blocked
    ensures Rounds(g, blocked, a + b, threads, k) == Some(KeyError) && Near(g, Actives(blocked), a, b, n) ==> Near(g, Absent(g), a, b, n)
    ensures Rounds(g, blocked, a + b, threads, k) == Some(Answer(false)) && Near(g, Absent(g), a, b, n) ==> Near(g, Actives(blocked), a, b, n)
    decreases k, if a == [] then n + 1 else 0
  {
    if a == [] {
      assert [] + b == b && b + [] == b;
      if n > 0 && b != [] {
        NearestFirst(g, blocked, b, [], threads, k, n - 1);
        hide Within;
      }
    } else if k > 0 {
      var r, rest := a[0], a[1..];
      assert a == [r] + rest && (a + b)[0] == r && (a + b)[1..] == rest + b;
      var zs := if r in g then g[r] else [];
      if Active(blocked, r) || Missing(g, r) {
        assert Within(g, Actives(blocked), r, n) || Within(g, Absent(g), r, n);
      } else {
        NearNext(g, Actives(blocked), r, rest, b, n);
        NearNext(g, Absent(g), r, rest, b, n);
        assert rest + b + zs == rest + (b + zs) && (r.Thread? ==> rest + b + zs == rest + b);
        NearestFirst(g, blocked, rest, b + zs, if r.Thread? && r !in threads then threads + {r} else threads, k - 1, n);
      }
    }
  }

  /** Of something active and something missing the nearer one decides. */
  lemma NearestDecides(g: Holders, blocked: set<Holder>, refs: seq<Holder>, n: nat)
    requires Wellformed(g)
    ensures Near(g, Actives(blocked), refs, [], n) && !Near(g, Absent(g), refs, [], n) ==> EndsWith(g, blocked, refs, Answer(false))
    ensures Near(g, Absent(g), refs, [], n) && !Near(g, Actives(blocked), refs, [], n) ==> EndsWith(g, blocked, refs, KeyError)
  {
    hide Rounds, AnyReaches, AnyCycle, Within, Wellformed;
    NearReaches(g, Actives(blocked), refs, n);
    NearReaches(g, Absent(g), refs, n);
    AnswersExactly(g, blocked, refs);
    if Ends(g, blocked, refs) {
      var k :| Rounds(g, blocked, refs, {}, k).Some?;
      SomeOutcome(Rounds(g, blocked, refs, {}, k));
      assert refs + [] == refs;
      NearestFirst(g, blocked, refs, [], {}, k, n);
    }
  }

  lemma NearReaches(g: Holders, s: iset<Holder>, refs: seq<Holder>, n: nat)
    ensures Near(g, s, refs, [], n) ==> AnyReaches(g, s, refs)
  {
    hide Within;
    if x :| x in refs && Within(g, s, x, n) {
      WithinReaches(g, s, x, n);
    }
  }

  lemma {:induction false} WithinReaches(g: Holders, s: iset<Holder>, x: Holder, n: nat)
    requires Within(g, s, x, n)
    ensures ReachesAny(g, s, x)
    decreases n
  {
    ReachesAnyThrough(g, s, x);
    hide ReachesAny;
    if x !in s {
      var z :| Edge(g, x, z) && Within(g, s, z, n - 1);
      WithinReaches(g, s, z, n - 1);
    }
  }

  /** Two spaces that refer to each other, one of them held by a process whose only thread is blocked: the test
      goes on for ever. */
  lemma TwoSpacesNeverAnswer(a: Holder, b: Holder, p: Holder, t: Holder, k: nat)
    requires a.Space? && b.Space? && a != b && p.Process? && t.Thread?
    ensures var g := map[a := [b, p], b := [a], p := [t]]; Wellformed(g) && Rounds(g, {t}, g[a], {}, k) == None
  {
    hide Reaches, Rounds;
    var g := map[a := [b, p], b := [a], p := [t]];
    assert forall x, y :: Edge(g, x, y) ==> y in {a, b, p, t};
    assert Edge(g, a, g[a][0]) && Edge(g, b, g[b][0]);
    ReachesSelf(g, a);
    ReachesSelf(g, b);
    ReachesFirst(g, b, a, a);
    ReachesFirst(g, a, b, b);
    assert OnCycle(g, b) && b in g[a];
    assert AnyCycle(g, g[a]);
    forall x, y | x in g[a] && Reaches(g, x, y)
      ensures !Active({t}, y) && !Missing(g, y)
    {
      ClosedContains(g, {a, b, p, t}, x, y);
    }
    AnswersAreRight(g, {t}, g[a], {}, k);
    if Rounds(g, {t}, g[a], {}, k).Some? {
      SomeOutcome(Rounds(g, {t}, g[a], {}, k));
    }
  }

  /** The test as it is written. It must not be called where it would not end: that takes a cycle of
      references and nothing active or missing. */
  method IsLocallyDeadlocked(g: Holders, blocked: set<Holder>, self: Holder) returns (o: Outcome)
    requires self.Uts? || (self.Space? && self in g && Wellformed(g))
    requires self.Space? ==> AnyActive(g, blocked, g[self]) || AnyMissing(g, g[self]) || !AnyCycle(g, g[self])
    ensures self.Uts? ==> o == Answer(false)
    ensures self.Space? ==> EndsWith(g, blocked, g[self], o)
    ensures self.Space? ==> (o == Answer(true) <==> !AnyActive(g, blocked, g[self]) && !AnyMissing(g, g[self]))
    ensures self.Space? && o == Answer(false) ==> AnyActive(g, blocked, g[self])
    ensures self.Space? && o == KeyError ==> AnyMissing(g, g[self])
  {
    hide AnyReaches, AnyCycle, Wellformed;
    if self.Uts? {
      return Answer(false);
    }
    var refs, threads := g[self], {};
    AnswersExactly(g, blocked, refs);
    OutcomesAreRight(g, blocked, refs);
    ghost var k :| Rounds(g, blocked, refs, {}, k).Some?;
    ghost var outcome := Rounds(g, blocked, refs, {}, k);
    SomeOutcome(outcome);
    assert EndsWith(g, blocked, refs, outcome.value);
    while true
      invariant Rounds(g, blocked, refs, threads, k) == outcome && outcome.Some?
      decreases k
    {
      if |refs| == 0 {
        return Answer(true);
      }
      var h := refs[0];
      if h.Uts? {
        return Answer(false);
      } else if h.Space? || h.Process? {
        if h !in g {
          return KeyError;
        }
        refs := refs[1..] + g[h];
      } else {
        refs := refs[1..];
        if h !in threads {
          if h in blocked {
            threads := threads + {h};
          } else {
            return Answer(false);
          }
        }
      }
      k := k - 1;
    }
  }
}
