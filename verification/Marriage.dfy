/** The stable marriage example (linda/examples/marriage.py): men and women are processes that
    propose and reject through one tuple space. */
module Marriage {
  import opened Options
  import opened Pigeonhole

  type Order = seq<nat>
  datatype Problem = Problem(n: nat, men: seq<Order>, women: seq<Order>)

  ghost predicate IsOrder(o: Order, n: nat) {
    |o| == n && AllDistinct(o) && forall k :: 0 <= k < n ==> o[k] < n
  }

  ghost predicate Wellformed(p: Problem) {
    && |p.men| == |p.women| == p.n
    && (forall m :: 0 <= m < p.n ==> IsOrder(p.men[m], p.n))
    && (forall w :: 0 <= w < p.n ==> IsOrder(p.women[w], p.n))
  }

  /** list.index: the first position of x. */
  function Index(o: Order, x: nat): (i: nat)
    requires x in o
    ensures i < |o| && o[i] == x
  {
    if o[0] == x then 0 else 1 + Index(o[1..], x)
  }

  /** Position of x in o; everybody occurs in a well-formed order. */
  function Rank(o: Order, x: nat): nat {
    if x in o then Index(o, x) else |o|
  }

  /** Whom a woman would rather marry. */
  function BestOf(o: Order, fiance: Option<nat>, suitor: nat): nat {
    if fiance == None then suitor
    else if Rank(o, fiance.value) < Rank(o, suitor) then fiance.value
    else suitor
  }

  /** Whom she would rather not marry, if there is anyone else. */
  function WorstOf(o: Order, fiance: Option<nat>, suitor: nat): Option<nat> {
    if Some(BestOf(o, fiance, suitor)) == fiance then Some(suitor) else fiance
  }

  /** Where a man stands in his list: about to propose to the i-th woman, waiting for her to reject
      him, or gone after the wait was unblocked. */
  datatype Man = Proposing(i: nat) | Waiting(i: nat) | Accepted(i: nat)
  /** A woman waits for a proposal, is about to reject someone, or is gone. */
  datatype Woman = Listening | Rejecting(m: nat) | Married

  /** proposals and rejections are the ("propose", m, w) and ("reject", m, w) tuples. */
  datatype State = State(men: seq<Man>, women: seq<Woman>, fiance: seq<Option<nat>>,
                         proposals: multiset<(nat, nat)>, rejections: multiset<(nat, nat)>)

  function Init(p: Problem): State {
    State(seq(p.n, _ => Proposing(0)), seq(p.n, _ => Listening), seq(p.n, _ => None), multiset{}, multiset{})
  }

  ghost predicate Sized(p: Problem, s: State) {
    |s.men| == |s.women| == |s.fiance| == p.n
  }

  ghost predicate Propose(p: Problem, s: State, t: State, m: nat)
    requires Wellformed(p) && Sized(p, s)
  {
    && m < p.n && s.men[m].Proposing? && s.men[m].i < p.n
    && t == s.(men := s.men[m := Waiting(s.men[m].i)], proposals := s.proposals + multiset{(m, p.men[m][s.men[m].i])})
  }

  ghost predicate TakeRejection(p: Problem, s: State, t: State, m: nat)
    requires Wellformed(p) && Sized(p, s)
  {
    && m < p.n && s.men[m].Waiting? && s.men[m].i < p.n
    && var w := p.men[m][s.men[m].i];
    && (m, w) in s.rejections
    && t == s.(men := s.men[m := Proposing(s.men[m].i + 1)], rejections := s.rejections - multiset{(m, w)})
  }

  ghost predicate TakeProposal(p: Problem, s: State, t: State, w: nat, m: nat)
    requires Wellformed(p) && Sized(p, s)
  {
    && w < p.n && s.women[w].Listening? && (m, w) in s.proposals
    && var loser := WorstOf(p.women[w], s.fiance[w], m);
    && t == s.(proposals := s.proposals - multiset{(m, w)},
               fiance := s.fiance[w := Some(BestOf(p.women[w], s.fiance[w], m))],
               women := s.women[w := if loser.Some? then Rejecting(loser.value) else Listening])
  }

  ghost predicate SendRejection(p: Problem, s: State, t: State, w: nat)
    requires Sized(p, s)
  {
    && w < p.n && s.women[w].Rejecting?
    && t == s.(women := s.women[w := Listening], rejections := s.rejections + multiset{(s.women[w].m, w)})
  }

  /** Nobody can put or take a tuple. */
  ghost predicate Quiescent(p: Problem, s: State)
    requires Wellformed(p) && Sized(p, s)
  {
    && (forall m :: 0 <= m < p.n ==>
          && (s.men[m].Proposing? ==> s.men[m].i >= p.n)
          && (s.men[m].Waiting? && s.men[m].i < p.n ==> (m, p.men[m][s.men[m].i]) !in s.rejections))
    && (forall w :: 0 <= w < p.n ==> !s.women[w].Rejecting?)
    && (forall w, m: nat :: 0 <= w < p.n && s.women[w].Listening? ==> (m, w) !in s.proposals)
  }

  /** inp returns None to one waiting process once nobody can move. */
  ghost predicate Unblock(p: Problem, s: State, t: State, k: nat, man: bool)
    requires Wellformed(p) && Sized(p, s)
  {
    && k < p.n && Quiescent(p, s)
    && if man then s.men[k].Waiting? && t == s.(men := s.men[k := Accepted(s.men[k].i)])
       else s.women[k].Listening? && t == s.(women := s.women[k := Married])
  }

  datatype Move = ManProposes(m: nat) | ManIsRejected(m: nat) | WomanChooses(w: nat, m: nat)
                | WomanRejects(w: nat) | Deadlock(k: nat, man: bool)

  ghost predicate Step(p: Problem, s: State, t: State, v: Move)
    requires Wellformed(p) && Sized(p, s)
  {
    match v
    case ManProposes(m) => Propose(p, s, t, m)
    case ManIsRejected(m) => TakeRejection(p, s, t, m)
    case WomanChooses(w, m) => TakeProposal(p, s, t, w, m)
    case WomanRejects(w) => SendRejection(p, s, t, w)
    case Deadlock(k, man) => Unblock(p, s, t, k, man)
  }

  ghost predicate Moves(p: Problem, s: State, t: State)
    requires Wellformed(p)
  {
    Sized(p, s) && exists v :: Step(p, s, t, v)
  }

  ghost predicate IsRun(p: Problem, r: seq<State>)
    requires Wellformed(p)
  {
    r != [] && r[0] == Init(p) && forall k, l :: 0 <= k && l == k + 1 && l < |r| ==> Moves(p, r[k], r[l])
  }

  // ----- The invariant -----

  ghost predicate Courts(p: Problem, s: State, m: nat, w: nat)
    requires Wellformed(p) && Sized(p, s) && m < p.n
  {
    !s.men[m].Proposing? && s.men[m].i < p.n && p.men[m][s.men[m].i] == w
  }

  /** In how many ways m and w are engaged with each other: as a proposal on its way, as the fiance,
      as the one being rejected, or as a rejection on its way. */
  ghost function Ties(s: State, m: nat, w: nat): int
    requires w < |s.women| && w < |s.fiance|
  {
    s.proposals[(m, w)] + s.rejections[(m, w)]
    + (if s.fiance[w] == Some(m) then 1 else 0) + (if s.women[w] == Rejecting(m) then 1 else 0)
  }

  /** w has decided against m. */
  ghost predicate Refused(p: Problem, s: State, m: nat, w: nat)
    requires Wellformed(p) && Sized(p, s) && m < p.n && w < p.n
  {
    Rank(p.men[m], w) < s.men[m].i || s.women[w] == Rejecting(m) || (m, w) in s.rejections
  }

  ghost predicate Suits(p: Problem, s: State, m: nat, w: nat)
    requires Wellformed(p) && Sized(p, s) && m < p.n && w < p.n
  {
    && Ties(s, m, w) == (if Courts(p, s, m, w) then 1 else 0)
    && (Refused(p, s, m, w) ==> s.fiance[w].Some? && Rank(p.women[w], s.fiance[w].value) < Rank(p.women[w], m))
  }

  ghost predicate Shaped(p: Problem, s: State)
    requires Wellformed(p)
  {
    && Sized(p, s)
    && (forall m :: 0 <= m < p.n ==> if s.men[m].Proposing? then s.men[m].i <= p.n else s.men[m].i < p.n)
    && (forall x :: x in s.proposals || x in s.rejections ==> x.0 < p.n && x.1 < p.n)
    && (forall w :: 0 <= w < p.n ==>
          && (s.fiance[w].Some? ==> s.fiance[w].value < p.n)
          && (s.women[w].Rejecting? ==> s.women[w].m < p.n))
  }

  ghost predicate AllSuit(p: Problem, s: State)
    requires Wellformed(p) && Sized(p, s)
  {
    forall m, w :: 0 <= m < p.n && 0 <= w < p.n ==> Suits(p, s, m, w)
  }

  /** Whoever left did so when nobody could move, and left nothing behind. */
  ghost predicate LeftQuietly(p: Problem, s: State)
    requires Wellformed(p) && Shaped(p, s)
  {
    && (forall m :: 0 <= m < p.n && s.men[m].Accepted? ==> Quiescent(p, s) && (m, p.men[m][s.men[m].i]) !in s.rejections)
    && (forall w :: 0 <= w < p.n && s.women[w].Married? ==> Quiescent(p, s) && forall m: nat :: (m, w) !in s.proposals)
  }

  ghost predicate Inv(p: Problem, s: State)
    requires Wellformed(p)
  {
    Shaped(p, s) && AllSuit(p, s) && LeftQuietly(p, s)
  }

  lemma {:induction false} IndexOfElement(o: Order, i: nat)
    requires AllDistinct(o) && i < |o|
    ensures Rank(o, o[i]) == i
  {
  }

  lemma RankInjective(o: Order, n: nat, x: nat, y: nat)
    requires IsOrder(o, n) && x < n && y < n
    ensures Rank(o, x) < n && (Rank(o, x) == Rank(o, y) <==> x == y)
    ensures o[Rank(o, x)] == x
  {
    DistinctCovers(o, n);
  }

  lemma InitInv(p: Problem)
    requires Wellformed(p)
    ensures Inv(p, Init(p))
  {
  }

  lemma ProposeSuits(p: Problem, s: State, t: State, m: nat)
    requires Wellformed(p) && Shaped(p, s) && AllSuit(p, s) && Propose(p, s, t, m)
    ensures AllSuit(p, t)
  {
    IndexOfElement(p.men[m], s.men[m].i);
    forall m', w' | 0 <= m' < p.n && 0 <= w' < p.n
      ensures Suits(p, t, m', w')
    {
      assert Suits(p, s, m', w');
    }
  }

  lemma TakeRejectionSuits(p: Problem, s: State, t: State, m: nat)
    requires Wellformed(p) && Shaped(p, s) && AllSuit(p, s) && TakeRejection(p, s, t, m)
    ensures AllSuit(p, t)
  {
    var i := s.men[m].i;
    var w := p.men[m][i];
    IndexOfElement(p.men[m], i);
    forall m', w' | 0 <= m' < p.n && 0 <= w' < p.n
      ensures Suits(p, t, m', w')
    {
      assert Suits(p, s, m', w');
      if m' == m {
        RankInjective(p.men[m], p.n, w, w');
      }
    }
  }

  lemma TakeProposalSuits(p: Problem, s: State, t: State, w: nat, m: nat)
    requires Wellformed(p) && Shaped(p, s) && AllSuit(p, s) && TakeProposal(p, s, t, w, m)
    ensures AllSuit(p, t)
  {
    assert Suits(p, s, m, w);
    if s.fiance[w].Some? {
      assert Suits(p, s, s.fiance[w].value, w);
      RankInjective(p.women[w], p.n, s.fiance[w].value, m);
    }
    forall m', w' | 0 <= m' < p.n && 0 <= w' < p.n
      ensures Suits(p, t, m', w')
    {
      assert Suits(p, s, m', w');
    }
  }

  lemma SendRejectionSuits(p: Problem, s: State, t: State, w: nat)
    requires Wellformed(p) && Shaped(p, s) && AllSuit(p, s) && SendRejection(p, s, t, w)
    ensures AllSuit(p, t)
  {
    forall m', w' | 0 <= m' < p.n && 0 <= w' < p.n
      ensures Suits(p, t, m', w')
    {
      assert Suits(p, s, m', w');
    }
  }

  lemma UnblockSuits(p: Problem, s: State, t: State, k: nat, man: bool)
    requires Wellformed(p) && Shaped(p, s) && AllSuit(p, s) && Unblock(p, s, t, k, man)
    ensures AllSuit(p, t)
  {
    hide Quiescent;
    forall m', w' | 0 <= m' < p.n && 0 <= w' < p.n
      ensures Suits(p, t, m', w')
    {
      assert Suits(p, s, m', w');
    }
  }

  lemma ManStepShape(p: Problem, s: State, t: State, v: Move)
    requires Wellformed(p) && Shaped(p, s) && Step(p, s, t, v) && (v.ManProposes? || v.ManIsRejected?)
    ensures Shaped(p, t)
  {
  }

  lemma WomanStepShape(p: Problem, s: State, t: State, v: Move)
    requires Wellformed(p) && Shaped(p, s) && Step(p, s, t, v) && (v.WomanChooses? || v.WomanRejects?)
    ensures Shaped(p, t)
  {
    hide Rank;
  }

  lemma StepShape(p: Problem, s: State, t: State, v: Move)
    requires Wellformed(p) && Shaped(p, s) && Step(p, s, t, v)
    ensures Shaped(p, t)
  {
    if v.Deadlock? {
      hide Quiescent;
    } else if v.ManProposes? || v.ManIsRejected? {
      ManStepShape(p, s, t, v);
    } else {
      WomanStepShape(p, s, t, v);
    }
  }

  /** Before a step that is not an unblocking, nobody has left. */
  lemma ActiveMeansAllThere(p: Problem, s: State, t: State, v: Move)
    requires Wellformed(p) && Shaped(p, s) && LeftQuietly(p, s) && Step(p, s, t, v) && !v.Deadlock?
    ensures AllThere(p, s)
  {
    hide BestOf, WorstOf;
    assert !Quiescent(p, s);
  }

  ghost predicate AllThere(p: Problem, s: State)
    requires Sized(p, s)
  {
    (forall m :: 0 <= m < p.n ==> !s.men[m].Accepted?) && (forall w :: 0 <= w < p.n ==> !s.women[w].Married?)
  }

  lemma StillAllThere(p: Problem, s: State, t: State, v: Move)
    requires Wellformed(p) && Sized(p, s) && Sized(p, t) && AllThere(p, s) && Step(p, s, t, v) && !v.Deadlock?
    ensures AllThere(p, t)
  {
    hide BestOf, WorstOf;
  }

  lemma StepQuietly(p: Problem, s: State, t: State, v: Move)
    requires Wellformed(p) && Shaped(p, s) && Shaped(p, t) && LeftQuietly(p, s) && Step(p, s, t, v)
    ensures LeftQuietly(p, t)
  {
    if v.Deadlock? {
      QuietUnblock(p, s, t, v.k, v.man);
    } else {
      ActiveMeansAllThere(p, s, t, v);
      StillAllThere(p, s, t, v);
      hide Quiescent, Step;
    }
  }

  lemma QuietUnblock(p: Problem, s: State, t: State, k: nat, man: bool)
    requires Wellformed(p) && Shaped(p, s) && Shaped(p, t) && LeftQuietly(p, s) && Unblock(p, s, t, k, man)
    ensures LeftQuietly(p, t)
  {
    assert Quiescent(p, t);
  }

  lemma StepInv(p: Problem, s: State, t: State, v: Move)
    requires Wellformed(p) && Inv(p, s) && Step(p, s, t, v)
    ensures Inv(p, t)
  {
    StepShape(p, s, t, v);
    StepQuietly(p, s, t, v);
    hide AllSuit, Shaped, LeftQuietly;
    match v
    case ManProposes(m) => ProposeSuits(p, s, t, m);
    case ManIsRejected(m) => TakeRejectionSuits(p, s, t, m);
    case WomanChooses(w, m) => TakeProposalSuits(p, s, t, w, m);
    case WomanRejects(w) => SendRejectionSuits(p, s, t, w);
    case Deadlock(k, man) => UnblockSuits(p, s, t, k, man);
  }

  lemma {:induction false} RunInv(p: Problem, r: seq<State>, k: nat)
    requires Wellformed(p) && IsRun(p, r) && k < |r|
    ensures Inv(p, r[k])
  {
    hide Inv;
    if k == 0 {
      InitInv(p);
    } else {
      RunInv(p, r, k - 1);
      assert Moves(p, r[k - 1], r[k]);
      var v :| Step(p, r[k - 1], r[k], v);
      StepInv(p, r[k - 1], r[k], v);
    }
  }

  // ----- Every run is finite -----

  function ManWeight(n: nat, m: Man): int {
    match m
    case Proposing(i) => 4 * (n - i) + 1
    case Waiting(i) => 4 * (n - i - 1) + 1
    case Accepted(i) => 4 * (n - i - 1)
  }

  function WomanWeight(w: Woman): int {
    match w
    case Listening => 1
    case Rejecting(_) => 3
    case Married => 0
  }

  ghost function Sum(f: seq<int>): int {
    if f == [] then 0 else f[0] + Sum(f[1..])
  }

  lemma {:induction false} SumUpdate(f: seq<int>, k: nat, x: int)
    requires k < |f|
    ensures Sum(f[k := x]) == Sum(f) - f[k] + x
  {
    if k > 0 {
      assert f[k := x][1..] == f[1..][k - 1 := x];
      SumUpdate(f[1..], k - 1, x);
    } else {
      assert f[0 := x][1..] == f[1..];
    }
  }

  lemma {:induction false} SumBounds(f: seq<int>, hi: int)
    requires forall k :: 0 <= k < |f| ==> 0 <= f[k] <= hi
    ensures 0 <= Sum(f) <= hi * |f|
  {
    if f != [] {
      SumBounds(f[1..], hi);
      assert hi * |f| == hi * |f[1..]| + hi;
    }
  }

  ghost function MenWeights(p: Problem, s: State): seq<int> {
    seq(|s.men|, m requires 0 <= m < |s.men| => ManWeight(p.n, s.men[m]))
  }

  ghost function WomenWeights(s: State): seq<int> {
    seq(|s.women|, w requires 0 <= w < |s.women| => WomanWeight(s.women[w]))
  }

  /** What is left to happen: every step uses up some of it. */
  ghost function Weight(p: Problem, s: State): int {
    PeopleWeight(p, s) + 3 * |s.proposals| + |s.rejections|
  }

  ghost function PeopleWeight(p: Problem, s: State): int {
    Sum(MenWeights(p, s)) + Sum(WomenWeights(s))
  }

  lemma ManChanges(p: Problem, s: State, t: State, m: nat)
    requires m < |s.men| && |t.men| == |s.men| && t.men == s.men[m := t.men[m]] && t.women == s.women
    ensures PeopleWeight(p, t) == PeopleWeight(p, s) - ManWeight(p.n, s.men[m]) + ManWeight(p.n, t.men[m])
  {
    assert MenWeights(p, t) == MenWeights(p, s)[m := ManWeight(p.n, t.men[m])];
    assert WomenWeights(t) == WomenWeights(s);
    SumUpdate(MenWeights(p, s), m, ManWeight(p.n, t.men[m]));
  }

  lemma WomanChanges(p: Problem, s: State, t: State, w: nat)
    requires w < |s.women| && |t.women| == |s.women| && t.women == s.women[w := t.women[w]] && t.men == s.men
    ensures PeopleWeight(p, t) == PeopleWeight(p, s) - WomanWeight(s.women[w]) + WomanWeight(t.women[w])
  {
    assert MenWeights(p, t) == MenWeights(p, s);
    assert WomenWeights(t) == WomenWeights(s)[w := WomanWeight(t.women[w])];
    SumUpdate(WomenWeights(s), w, WomanWeight(t.women[w]));
  }

  lemma OneLess(a: multiset<(nat, nat)>, x: (nat, nat))
    requires x in a
    ensures |a - multiset{x}| == |a| - 1
  {
  }

  lemma ManStepWeighs(p: Problem, s: State, t: State, v: Move)
    requires Wellformed(p) && Sized(p, s) && Step(p, s, t, v) && (v.ManProposes? || v.ManIsRejected?)
    ensures Weight(p, t) < Weight(p, s)
  {
    hide PeopleWeight;
    ManChanges(p, s, t, v.m);
    if v.ManIsRejected? {
      OneLess(s.rejections, (v.m, p.men[v.m][s.men[v.m].i]));
    }
  }

  lemma WomanStepWeighs(p: Problem, s: State, t: State, v: Move)
    requires Wellformed(p) && Sized(p, s) && Step(p, s, t, v) && (v.WomanChooses? || v.WomanRejects?)
    ensures Weight(p, t) < Weight(p, s)
  {
    hide PeopleWeight, BestOf, WorstOf;
    WomanChanges(p, s, t, v.w);
    if v.WomanChooses? {
      OneLess(s.proposals, (v.m, v.w));
    }
  }

  lemma StepWeighs(p: Problem, s: State, t: State, v: Move)
    requires Wellformed(p) && Sized(p, s) && Step(p, s, t, v)
    ensures Weight(p, t) < Weight(p, s)
  {
    if v.Deadlock? {
      hide PeopleWeight, Quiescent;
      if v.man {
        ManChanges(p, s, t, v.k);
      } else {
        WomanChanges(p, s, t, v.k);
      }
    } else if v.ManProposes? || v.ManIsRejected? {
      ManStepWeighs(p, s, t, v);
    } else {
      WomanStepWeighs(p, s, t, v);
    }
  }

  lemma WeightBounds(p: Problem, s: State)
    requires Wellformed(p) && Inv(p, s)
    ensures 0 <= Weight(p, s)
  {
    hide Sum, Suits, Quiescent;
    SumBounds(MenWeights(p, s), 4 * p.n + 1);
    SumBounds(WomenWeights(s), 3);
  }

  lemma {:induction false} SumConstant(n: nat, f: seq<int>, x: int)
    requires |f| == n && forall k :: 0 <= k < n ==> f[k] == x
    ensures Sum(f) == n * x
  {
    if n > 0 {
      SumConstant(n - 1, f[1..], x);
      assert n * x == (n - 1) * x + x;
    }
  }

  lemma {:induction false} RunWeighs(p: Problem, r: seq<State>, k: nat)
    requires Wellformed(p) && IsRun(p, r) && k < |r|
    ensures Weight(p, r[k]) + k <= Weight(p, Init(p))
  {
    hide Weight, Inv;
    if k > 0 {
      RunWeighs(p, r, k - 1);
      assert Moves(p, r[k - 1], r[k]);
      var v :| Step(p, r[k - 1], r[k], v);
      RunInv(p, r, k - 1);
      StepWeighs(p, r[k - 1], r[k], v);
    }
  }

  /** No run has more than 4 n^2 + 2 n steps. */
  lemma RunsAreFinite(p: Problem, r: seq<State>)
    requires Wellformed(p) && IsRun(p, r)
    ensures |r| <= p.n * (4 * p.n + 1) + p.n + 1
  {
    hide Inv;
    RunInv(p, r, |r| - 1);
    WeightBounds(p, r[|r| - 1]);
    RunWeighs(p, r, |r| - 1);
    SumConstant(p.n, MenWeights(p, Init(p)), 4 * p.n + 1);
    SumConstant(p.n, WomenWeights(Init(p)), 1);
  }

  // ----- What a quiescent state looks like -----

  /** Distinct women have distinct fiances. */
  lemma FiancesDiffer(p: Problem, s: State, w: nat, w': nat)
    requires Wellformed(p) && Inv(p, s) && w < w' < p.n
    requires s.fiance[w].Some?
    ensures s.fiance[w] != s.fiance[w']
  {
    var m := s.fiance[w].value;
    assert Suits(p, s, m, w) && Suits(p, s, m, w');
  }

  /** If every woman is engaged, every man is. */
  lemma EveryManEngaged(p: Problem, s: State, m: nat)
    requires Wellformed(p) && Inv(p, s) && m < p.n
    requires forall w :: 0 <= w < p.n ==> s.fiance[w].Some?
    ensures exists w :: 0 <= w < p.n && s.fiance[w] == Some(m)
  {
    var f := seq(p.n, w requires 0 <= w < p.n => s.fiance[w].value);
    forall i, j | 0 <= i < j < p.n
      ensures f[i] != f[j]
    {
      FiancesDiffer(p, s, i, j);
    }
    DistinctCovers(f, p.n);
    assert m in f;
    var w :| 0 <= w < p.n && f[w] == m;
    assert s.fiance[w] == Some(m);
  }

  /** No man is ever turned down by everyone. */
  lemma NoManExhaustsHisList(p: Problem, s: State, m: nat)
    requires Wellformed(p) && Inv(p, s) && m < p.n
    ensures s.men[m].i < p.n
  {
    if s.men[m].i >= p.n {
      forall w | 0 <= w < p.n
        ensures s.fiance[w].Some? && s.fiance[w] != Some(m)
      {
        assert Suits(p, s, m, w);
        RankInjective(p.men[m], p.n, w, w);
      }
      EveryManEngaged(p, s, m);
    }
  }

  // ----- Stability -----

  /** m and the wife of m' would both rather be with each other. */
  ghost predicate Blocks(p: Problem, mu: seq<nat>, m: nat, m': nat)
    requires Wellformed(p) && |mu| == p.n && m < p.n && m' < p.n && mu[m'] < p.n
  {
    && Rank(p.men[m], mu[m']) < Rank(p.men[m], mu[m])
    && Rank(p.women[mu[m']], m) < Rank(p.women[mu[m']], m')
  }

  /** A perfect matching, given by the wife of each man, without a blocking pair. */
  ghost predicate Stable(p: Problem, mu: seq<nat>)
    requires Wellformed(p)
  {
    && |mu| == p.n && AllDistinct(mu) && (forall m :: 0 <= m < p.n ==> mu[m] < p.n)
    && forall m, m' :: 0 <= m < p.n && 0 <= m' < p.n ==> !Blocks(p, mu, m, m')
  }

  /** The woman each man stands at. */
  ghost function Wives(p: Problem, s: State): seq<nat>
    requires Wellformed(p) && Sized(p, s) && forall m :: 0 <= m < p.n ==> s.men[m].i < p.n
  {
    seq(p.n, m requires 0 <= m < p.n => p.men[m][s.men[m].i])
  }

  lemma InvBoundsMen(p: Problem, s: State)
    requires Wellformed(p) && Inv(p, s)
    ensures Sized(p, s) && forall m :: 0 <= m < p.n ==> s.men[m].i < p.n
  {
    hide Suits;
    forall m | 0 <= m < p.n
      ensures s.men[m].i < p.n
    {
      NoManExhaustsHisList(p, s, m);
    }
  }

  /** When nobody can move, each man is the fiance of the woman he stands at. */
  lemma QuiescentEngaged(p: Problem, s: State, m: nat)
    requires Wellformed(p) && Inv(p, s) && Quiescent(p, s) && m < p.n
    ensures s.men[m].i < p.n && s.fiance[p.men[m][s.men[m].i]] == Some(m)
  {
    NoManExhaustsHisList(p, s, m);
    var w := p.men[m][s.men[m].i];
    assert Suits(p, s, m, w);
    assert (m, w) !in s.proposals;
    assert (m, w) !in s.rejections;
  }

  lemma QuiescentIsStable(p: Problem, s: State)
    requires Wellformed(p) && Inv(p, s) && Quiescent(p, s)
    ensures forall m :: 0 <= m < p.n ==> s.men[m].i < p.n
    ensures Stable(p, Wives(p, s))
  {
    InvBoundsMen(p, s);
    var mu := Wives(p, s);
    forall m | 0 <= m < p.n
      ensures s.fiance[mu[m]] == Some(m)
    {
      QuiescentEngaged(p, s, m);
    }
    assert AllDistinct(mu);
    forall m, m' | 0 <= m < p.n && 0 <= m' < p.n
      ensures !Blocks(p, mu, m, m')
    {
      assert Suits(p, s, m, mu[m']);
      IndexOfElement(p.men[m], s.men[m].i);
    }
  }

  // ----- The outcome does not depend on the schedule -----

  /** No man was refused by his wife in mu. */
  ghost predicate Spares(p: Problem, s: State, mu: seq<nat>)
    requires Wellformed(p) && Sized(p, s) && |mu| == p.n
  {
    forall m, w :: 0 <= m < p.n && 0 <= w < p.n && Refused(p, s, m, w) ==> mu[m] != w
  }

  /** A woman who prefers her new fiance does not refuse her husband of a stable matching. */
  lemma ChoiceSpares(p: Problem, s: State, t: State, w: nat, m: nat, mu: seq<nat>, x: nat)
    requires Wellformed(p) && Inv(p, s) && Inv(p, t) && TakeProposal(p, s, t, w, m)
    requires Stable(p, mu) && Spares(p, s, mu) && t.women[w] == Rejecting(x)
    ensures x < p.n && mu[x] != w
  {
    var b := t.fiance[w].value;
    assert Suits(p, t, x, w) && Suits(p, t, b, w);
    assert Refused(p, t, x, w);
    assert Courts(p, t, b, w);
    IndexOfElement(p.men[b], t.men[b].i);
    RankInjective(p.men[b], p.n, mu[b], w);
    assert !Refused(p, s, b, mu[b]);
    assert !Blocks(p, mu, b, x);
  }

  lemma StepSpares(p: Problem, s: State, t: State, v: Move, mu: seq<nat>)
    requires Wellformed(p) && Inv(p, s) && Inv(p, t) && Step(p, s, t, v)
    requires Stable(p, mu) && Spares(p, s, mu)
    ensures Spares(p, t, mu)
  {
    hide AllSuit, LeftQuietly, Blocks, Refused;
    forall m, w | 0 <= m < p.n && 0 <= w < p.n && Refused(p, t, m, w)
      ensures mu[m] != w
    {
      if !Refused(p, s, m, w) {
        NewlyRefused(p, s, t, v, m, w);
        ChoiceSpares(p, s, t, v.w, v.m, mu, m);
      }
    }
  }

  /** Only a woman who chooses refuses anyone. */
  lemma NewlyRefused(p: Problem, s: State, t: State, v: Move, m: nat, w: nat)
    requires Wellformed(p) && Shaped(p, s) && Shaped(p, t) && Step(p, s, t, v) && m < p.n && w < p.n
    requires Refused(p, t, m, w) && !Refused(p, s, m, w)
    ensures v.WomanChooses? && v.w == w && t.women[w] == Rejecting(m)
  {
    hide Refused, Step, Shaped;
    if !v.WomanChooses? {
      OthersRefuseNobody(p, s, t, v, m, w);
    } else {
      ChoiceRefusesOne(p, s, t, v.w, v.m, m, w);
    }
  }

  lemma OthersRefuseNobody(p: Problem, s: State, t: State, v: Move, m: nat, w: nat)
    requires Wellformed(p) && Shaped(p, s) && Shaped(p, t) && Step(p, s, t, v) && m < p.n && w < p.n && !v.WomanChooses?
    requires Refused(p, t, m, w)
    ensures Refused(p, s, m, w)
  {
    hide Quiescent, BestOf, WorstOf, Shaped;
    ShapedIsSized(p, s);
    RankInjective(p.men[m], p.n, w, w);
  }

  lemma ChoiceRefusesOne(p: Problem, s: State, t: State, x: nat, suitor: nat, m: nat, w: nat)
    requires Wellformed(p) && Shaped(p, s) && Shaped(p, t) && Step(p, s, t, WomanChooses(x, suitor)) && m < p.n && w < p.n
    requires Refused(p, t, m, w) && !Refused(p, s, m, w)
    ensures x == w && t.women[w] == Rejecting(m)
  {
    hide Quiescent, BestOf, WorstOf, Rank;
  }

  lemma ShapedIsSized(p: Problem, s: State)
    requires Wellformed(p) && Shaped(p, s)
    ensures Sized(p, s)
  {
  }

  lemma {:induction false} RunSpares(p: Problem, r: seq<State>, k: nat, mu: seq<nat>)
    requires Wellformed(p) && IsRun(p, r) && k < |r| && Stable(p, mu)
    ensures Inv(p, r[k]) && Spares(p, r[k], mu)
  {
    hide Inv, Spares;
    RunInv(p, r, k);
    if k > 0 {
      RunSpares(p, r, k - 1, mu);
      assert Moves(p, r[k - 1], r[k]);
      var v :| Step(p, r[k - 1], r[k], v);
      StepSpares(p, r[k - 1], r[k], v, mu);
    } else {
      InitSpares(p, mu);
    }
  }

  lemma InitSpares(p: Problem, mu: seq<nat>)
    requires Wellformed(p) && Stable(p, mu)
    ensures Spares(p, Init(p), mu)
  {
  }

  /** In every reachable state each man stands at a woman he likes at least as much as his wife in
      any stable matching. */
  lemma NoManDoesBetter(p: Problem, r: seq<State>, k: nat, mu: seq<nat>, m: nat)
    requires Wellformed(p) && IsRun(p, r) && k < |r| && Stable(p, mu) && m < p.n
    ensures Inv(p, r[k]) && r[k].men[m].i <= Rank(p.men[m], mu[m])
  {
    hide Suits;
    RunSpares(p, r, k, mu);
    assert !Refused(p, r[k], m, mu[m]);
  }

  ghost predicate SameOutcome(p: Problem, s: State, t: State)
    requires Wellformed(p) && Sized(p, s) && Sized(p, t)
  {
    s.fiance == t.fiance && forall m :: 0 <= m < p.n ==> s.men[m].i == t.men[m].i
  }

  lemma RestsAlike(p: Problem, r: seq<State>, q: seq<State>)
    requires Wellformed(p) && IsRun(p, r) && IsRun(p, q)
    requires Inv(p, r[|r| - 1]) && Quiescent(p, r[|r| - 1]) && Inv(p, q[|q| - 1]) && Quiescent(p, q[|q| - 1])
    ensures SameOutcome(p, r[|r| - 1], q[|q| - 1])
  {
    var s, t := r[|r| - 1], q[|q| - 1];
    QuiescentIsStable(p, s);
    QuiescentIsStable(p, t);
    forall m | 0 <= m < p.n
      ensures s.men[m].i == t.men[m].i
    {
      NoManDoesBetter(p, r, |r| - 1, Wives(p, t), m);
      NoManDoesBetter(p, q, |q| - 1, Wives(p, s), m);
      IndexOfElement(p.men[m], s.men[m].i);
      IndexOfElement(p.men[m], t.men[m].i);
    }
    var mu := Wives(p, s);
    forall w: nat | w < p.n
      ensures s.fiance[w] == t.fiance[w]
    {
      DistinctCovers(mu, p.n);
      assert w in mu;
      var m :| 0 <= m < p.n && mu[m] == w;
      QuiescentEngaged(p, s, m);
      QuiescentEngaged(p, t, m);
    }
  }

  /** All runs that come to rest end in the same matching. */
  lemma ScheduleIndependent(p: Problem, r: seq<State>, q: seq<State>)
    requires Wellformed(p) && IsRun(p, r) && IsRun(p, q) && Sized(p, r[|r| - 1]) && Sized(p, q[|q| - 1])
    requires Quiescent(p, r[|r| - 1]) && Quiescent(p, q[|q| - 1])
    ensures SameOutcome(p, r[|r| - 1], q[|q| - 1])
  {
    hide Inv, Quiescent, SameOutcome;
    RunInv(p, r, |r| - 1);
    RunInv(p, q, |q| - 1);
    RestsAlike(p, r, q);
  }

  // ----- Runs do not get stuck early -----

  ghost predicate Enabled(p: Problem, s: State)
    requires Wellformed(p) && Sized(p, s)
  {
    exists t, v :: Step(p, s, t, v)
  }

  ghost predicate AllGone(p: Problem, s: State)
    requires Sized(p, s)
  {
    && (forall m :: 0 <= m < p.n ==> s.men[m].Accepted?)
    && (forall w :: 0 <= w < p.n ==> s.women[w].Married?)
  }

  lemma QuiescentIsUnblocked(p: Problem, s: State)
    requires Wellformed(p) && Inv(p, s) && Quiescent(p, s) && !AllGone(p, s)
    ensures Enabled(p, s)
  {
    InvBoundsMen(p, s);
    if m :| 0 <= m < p.n && !s.men[m].Accepted? {
      assert Step(p, s, s.(men := s.men[m := Accepted(s.men[m].i)]), Deadlock(m, true));
    } else {
      var w :| 0 <= w < p.n && !s.women[w].Married?;
      assert Step(p, s, s.(women := s.women[w := Married]), Deadlock(w, false));
    }
  }

  lemma ManCanMove(p: Problem, s: State, m: nat)
    requires Wellformed(p) && Sized(p, s) && m < p.n && s.men[m].i < p.n
    requires s.men[m].Proposing? || (s.men[m].Waiting? && (m, p.men[m][s.men[m].i]) in s.rejections)
    ensures Enabled(p, s)
  {
    var i, w := s.men[m].i, p.men[m][s.men[m].i];
    if s.men[m].Proposing? {
      assert Step(p, s, s.(men := s.men[m := Waiting(i)], proposals := s.proposals + multiset{(m, w)}), ManProposes(m));
    } else {
      assert Step(p, s, s.(men := s.men[m := Proposing(i + 1)], rejections := s.rejections - multiset{(m, w)}), ManIsRejected(m));
    }
  }

  lemma WomanCanMove(p: Problem, s: State, w: nat, m: nat)
    requires Wellformed(p) && Sized(p, s) && w < p.n
    requires s.women[w].Rejecting? || (s.women[w].Listening? && (m, w) in s.proposals)
    ensures Enabled(p, s)
  {
    if s.women[w].Rejecting? {
      var t := s.(women := s.women[w := Listening], rejections := s.rejections + multiset{(s.women[w].m, w)});
      assert Step(p, s, t, WomanRejects(w));
    } else {
      var loser := WorstOf(p.women[w], s.fiance[w], m);
      var t := s.(proposals := s.proposals - multiset{(m, w)},
                  fiance := s.fiance[w := Some(BestOf(p.women[w], s.fiance[w], m))],
                  women := s.women[w := if loser.Some? then Rejecting(loser.value) else Listening]);
      assert Step(p, s, t, WomanChooses(w, m));
    }
  }

  /** While anyone is left, something can happen. */
  lemma SomethingCanHappen(p: Problem, s: State)
    requires Wellformed(p) && Inv(p, s) && !AllGone(p, s)
    ensures Enabled(p, s)
  {
    InvBoundsMen(p, s);
    if Quiescent(p, s) {
      QuiescentIsUnblocked(p, s);
    } else {
      hide Enabled, AllSuit, LeftQuietly;
      if m :| 0 <= m < p.n && s.men[m].Proposing? {
        ManCanMove(p, s, m);
      } else if m :| 0 <= m < p.n && s.men[m].Waiting? && (m, p.men[m][s.men[m].i]) in s.rejections {
        ManCanMove(p, s, m);
      } else if w :| 0 <= w < p.n && s.women[w].Rejecting? {
        WomanCanMove(p, s, w, 0);
      } else {
        var w, m: nat :| 0 <= w < p.n && s.women[w].Listening? && (m, w) in s.proposals;
        WomanCanMove(p, s, w, m);
      }
    }
  }

  /** Everyone is gone, married to each other in the stable matching that every man likes best. */
  ghost predicate HappilyEnded(p: Problem, s: State)
    requires Wellformed(p)
  {
    && Sized(p, s) && AllGone(p, s)
    && (forall m :: 0 <= m < p.n ==> s.men[m].i < p.n)
    && var mu := Wives(p, s);
    && Stable(p, mu)
    && (forall m :: 0 <= m < p.n ==> s.fiance[mu[m]] == Some(m))
    && (forall nu, m :: Stable(p, nu) && 0 <= m < p.n ==> Rank(p.men[m], mu[m]) <= Rank(p.men[m], nu[m]))
  }

  /** A run that cannot go on has ended for everybody, in a perfect matching without a blocking pair
      in which each man is with the wife he likes best among his wives in all stable matchings. */
  lemma FinishedRun(p: Problem, r: seq<State>)
    requires Wellformed(p) && IsRun(p, r) && Sized(p, r[|r| - 1])
    requires !Enabled(p, r[|r| - 1])
    ensures HappilyEnded(p, r[|r| - 1])
  {
    var s := r[|r| - 1];
    RunInv(p, r, |r| - 1);
    if !AllGone(p, s) {
      SomethingCanHappen(p, s);
    }
    hide Enabled, AllSuit;
    GoneIsQuiescent(p, s);
    QuiescentIsStable(p, s);
    var mu := Wives(p, s);
    forall m | 0 <= m < p.n
      ensures s.fiance[mu[m]] == Some(m)
    {
      QuiescentEngaged(p, s, m);
    }
    forall nu, m | Stable(p, nu) && 0 <= m < p.n
      ensures Rank(p.men[m], mu[m]) <= Rank(p.men[m], nu[m])
    {
      NoManDoesBetter(p, r, |r| - 1, nu, m);
      IndexOfElement(p.men[m], s.men[m].i);
    }
  }

  lemma GoneIsQuiescent(p: Problem, s: State)
    requires Wellformed(p) && Inv(p, s) && AllGone(p, s)
    ensures Quiescent(p, s)
  {
    hide AllSuit;
  }
}
