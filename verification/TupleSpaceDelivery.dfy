/** Where tuples go that are put into a tuplespace one after another (TupleSpace._out in
    linda/src/linda/tuplespace.py), said without going through the single steps. */
module TupleSpaceDelivery {
  import opened TupleMatching
  import opened Pigeonhole
  import opened TupleSpaceSteps

  /** The threads that wait to take x. */
  ghost function Takers(parked: map<Tid, Waiter>, x: Tuple): set<Tid> {
    set tid | tid in parked && parked[tid].pattern == x && parked[tid].destructive
  }

  /** The tuples that no taker gets: of equal ones, those after as many as there are takers. */
  ghost function NotTaken(parked: map<Tid, Waiter>, tups: seq<Tuple>): seq<Tuple> {
    if tups == [] then [] else
      var init, last := tups[..|tups| - 1], tups[|tups| - 1];
      NotTaken(parked, init) + if multiset(init)[last] < |Takers(parked, last)| then [] else [last]
  }

  ghost predicate AskedFor(requests: seq<Request>, x: Tuple) {
    exists r :: r in requests && r.pattern == x
  }

  /** The tuples that no node asked for. */
  ghost function NotAsked(requests: seq<Request>, tups: seq<Tuple>): seq<Tuple> {
    if tups == [] then [] else
      var init, last := tups[..|tups| - 1], tups[|tups| - 1];
      NotAsked(requests, init) + if AskedFor(requests, last) then [] else [last]
  }

  /** fs are the tuples that a node asked for, each sent to the first that did. */
  ghost predicate SentToAskers(ts: TsId, requests: seq<Request>, tups: seq<Tuple>, fs: seq<Forward>) {
    if tups == [] then fs == []
    else
      var init, last := tups[..|tups| - 1], tups[|tups| - 1];
      if AskedFor(requests, last) then
        && fs != [] && SentToAskers(ts, requests, init, fs[..|fs| - 1])
        && exists i: nat :: IsFirstFor(requests, last, i) && fs[|fs| - 1] == Forward(ts, last, requests[i].node)
      else SentToAskers(ts, requests, init, fs)
  }

  /** Who is parked before and after: nobody new; everybody whose template was not put; of the takers of each
      tuple as many fewer as it was put, as far as there were any; and where it was put more often than
      there were takers nobody with that template. */
  ghost predicate WokenBy(before: map<Tid, Waiter>, tups: seq<Tuple>, after: map<Tid, Waiter>) {
    && (forall tid :: tid in after ==> tid in before && after[tid] == before[tid])
    && (forall tid :: tid in before && before[tid].pattern !in tups ==> tid in after)
    && (forall x :: |Takers(after, x)| == TakersLeft(|Takers(before, x)|, multiset(tups)[x]))
    && (forall tid :: tid in after ==> multiset(tups)[after[tid].pattern] <= |Takers(before, after[tid].pattern)|)
  }

  function TakersLeft(takers: nat, put: nat): nat {
    if put < takers then takers - put else 0
  }

  /** Each thread woken between before and after, and nobody else, has one more reply: its own template. */
  ghost predicate WokenAnswered(ts: TsId, before: map<Tid, Waiter>, after: map<Tid, Waiter>, more: seq<Answer>) {
    && (forall a :: a in more ==> a.tid in before && a == Answer(a.tid, ts, before[a.tid].destructive, ResultTuple(before[a.tid].pattern)))
    && (forall tid :: AnsweredTo(more, tid) == if tid in before && tid !in after then 1 else 0)
  }

  /** t is s after tups were put into ts, in this order: each is taken by a thread that waits to take exactly
      it, as long as there is one; or else sent to the first node that asked for exactly it; or else stored
      at the end. Threads that wait to read one that is not taken are woken. Nothing else changes. */
  ghost predicate Delivered(s: State, ts: TsId, tups: seq<Tuple>, t: State) {
    && ts in s.spaces && ts in t.spaces && |s.returning| <= |t.returning| && |s.forwarded| <= |t.forwarded|
    && var p, q := s.spaces[ts], t.spaces[ts];
    && t == s.(spaces := s.spaces[ts := q], returning := t.returning, outs := s.outs + Labelled(ts, tups), forwarded := t.forwarded)
    && q.requests == p.requests
    && q.contain == p.contain + NotAsked(p.requests, NotTaken(p.parked, tups))
    && t.forwarded[..|s.forwarded|] == s.forwarded
    && SentToAskers(ts, p.requests, NotTaken(p.parked, tups), t.forwarded[|s.forwarded|..])
    && WokenBy(p.parked, tups, q.parked)
    && t.returning[..|s.returning|] == s.returning
    && WokenAnswered(ts, p.parked, q.parked, t.returning[|s.returning|..])
  }

  // ---- One more tuple ------------------------------------------------------------------------------

  lemma DeliversNothing(s: State, ts: TsId)
    requires ts in s.spaces
    ensures Delivered(s, ts, [], s)
  {
    assert s.returning[|s.returning|..] == [] && s.forwarded[|s.forwarded|..] == [];
    assert Labelled(ts, []) == [] && s.outs + [] == s.outs && s.spaces[ts].contain + [] == s.spaces[ts].contain;
  }

  /** Whether x is taken: exactly if somebody waits to take it. */
  lemma TakenByTaker(s: State, ts: TsId, x: Tuple, woken: seq<Tid>, t: State)
    requires ts in s.spaces && OutEffect(s, ts, x, woken, t)
    ensures var p, q := s.spaces[ts].parked, t.spaces[ts].parked;
      && (Takers(p, x) != {} <==> woken != [] && woken[|woken| - 1] in p && p[woken[|woken| - 1]].destructive)
      && |Takers(q, x)| == TakersLeft(|Takers(p, x)|, 1) && (forall y :: y != x ==> Takers(q, y) == Takers(p, y))
      && (Takers(p, x) == {} ==> forall tid :: tid in q ==> q[tid].pattern != x)
  {
    hide Answers, Placed;
    var p, q := s.spaces[ts].parked, t.spaces[ts].parked;
    forall tid | tid in p && p[tid].destructive && tid in woken
      ensures woken[|woken| - 1] == tid
    {
      var i :| 0 <= i < |woken| && woken[i] == tid;
    }
    if woken != [] && p[woken[|woken| - 1]].destructive {
      assert woken[|woken| - 1] in woken && woken[|woken| - 1] in Takers(p, x);
      assert Takers(q, x) == Takers(p, x) - {woken[|woken| - 1]};
    } else {
      assert Takers(p, x) == {} && Takers(q, x) == {};
    }
    forall y | y != x
      ensures Takers(q, y) == Takers(p, y)
    {
    }
  }

  lemma WokenToo(p: map<Tid, Waiter>, tups: seq<Tuple>, q: map<Tid, Waiter>, x: Tuple, r: map<Tid, Waiter>)
    requires WokenBy(p, tups, q) && (forall tid :: tid in r ==> tid in q && r[tid] == q[tid])
    requires forall tid :: tid in q && q[tid].pattern != x ==> tid in r
    requires |Takers(r, x)| == TakersLeft(|Takers(q, x)|, 1) && (forall y :: y != x ==> Takers(r, y) == Takers(q, y))
    requires Takers(q, x) == {} ==> forall tid :: tid in r ==> r[tid].pattern != x
    ensures WokenBy(p, tups + [x], r)
  {
    hide Takers;
    assert forall y :: multiset(tups + [x])[y] == multiset(tups)[y] + if y == x then 1 else 0;
    assert |Takers(q, x)| == 0 ==> Takers(q, x) == {};
  }

  lemma RepliedToo(ts: TsId, p: map<Tid, Waiter>, q: map<Tid, Waiter>, r: map<Tid, Waiter>, a: seq<Answer>, b: seq<Answer>)
    requires (forall tid :: tid in q ==> tid in p && q[tid] == p[tid]) && (forall tid :: tid in r ==> tid in q)
    requires WokenAnswered(ts, p, q, a) && WokenAnswered(ts, q, r, b)
    ensures WokenAnswered(ts, p, r, a + b)
  {
    hide AnsweredTo;
    forall tid
      ensures AnsweredTo(a + b, tid) == if tid in p && tid !in r then 1 else 0
    {
      AnsweredToJoin(a, b, tid);
    }
  }

  lemma {:induction false} AnswersSay(ts: TsId, parked: map<Tid, Waiter>, woken: seq<Tid>)
    requires forall tid :: tid in woken ==> tid in parked
    ensures forall a :: a in Answers(ts, parked, woken) ==>
              a.tid in parked && a == Answer(a.tid, ts, parked[a.tid].destructive, ResultTuple(parked[a.tid].pattern))
  {
    if woken != [] {
      assert woken[0] in woken && forall tid :: tid in woken[1..] ==> tid in woken;
      AnswersSay(ts, parked, woken[1..]);
    }
  }

  lemma OutReplies(s: State, ts: TsId, x: Tuple, woken: seq<Tid>, t: State)
    requires ts in s.spaces && OutEffect(s, ts, x, woken, t)
    ensures t.returning == s.returning + Answers(ts, s.spaces[ts].parked, woken)
    ensures WokenAnswered(ts, s.spaces[ts].parked, t.spaces[ts].parked, Answers(ts, s.spaces[ts].parked, woken))
  {
    hide Placed, Answers, AnsweredTo;
    var p := s.spaces[ts].parked;
    AnswersSay(ts, p, woken);
    forall tid
      ensures AnsweredTo(Answers(ts, p, woken), tid) == if tid in woken then 1 else 0
    {
      AnswersGoTo(ts, p, woken, tid);
    }
  }

  /** Where x goes if it is not taken. */
  lemma PlacedToo(ts: TsId, p: Space, q: Space, tups: seq<Tuple>, x: Tuple, before: seq<Forward>, fs: seq<Forward>, contain: seq<Tuple>, after: seq<Forward>)
    requires q.requests == p.requests && SentToAskers(ts, p.requests, tups, fs)
    requires Placed(ts, q, x, contain, before + fs, after) && q.contain == p.contain + NotAsked(p.requests, tups)
    ensures contain == p.contain + NotAsked(p.requests, tups + [x])
    ensures |before| <= |after| && after[..|before|] == before && SentToAskers(ts, p.requests, tups + [x], after[|before|..])
  {
    var more := tups + [x];
    assert more[..|more| - 1] == tups && more[|more| - 1] == x;
    if AskedFor(p.requests, x) {
      assert NotAsked(p.requests, tups) + [] == NotAsked(p.requests, tups);
      var i: nat :| IsFirstFor(p.requests, x, i) && after == before + fs + [Forward(ts, x, p.requests[i].node)];
      var gs := fs + [Forward(ts, x, p.requests[i].node)];
      assert after == before + gs && after[|before|..] == gs && gs[..|gs| - 1] == fs;
    } else {
      assert after == before + fs && after[|before|..] == fs;
    }
  }

  lemma DeliversOneMore(s: State, ts: TsId, tups: seq<Tuple>, t: State, x: Tuple, woken: seq<Tid>, u: State)
    requires Delivered(s, ts, tups, t) && OutEffect(t, ts, x, woken, u)
    ensures Delivered(s, ts, tups + [x], u)
  {
    hide OutEffect, WokenBy, WokenAnswered, SentToAskers, NotAsked, NotTaken, Takers;
    OutEffectFrame(t, ts, x, woken, u);
    TakenByTaker(t, ts, x, woken, u);
    OutReplies(t, ts, x, woken, u);
    MoreWoken(s, ts, tups, t, x, woken, u);
    MorePlaced(s, ts, tups, t, x, woken, u);
    assert Labelled(ts, tups + [x]) == Labelled(ts, tups) + [(ts, x)];
    assert s.outs + (Labelled(ts, tups) + [(ts, x)]) == s.outs + Labelled(ts, tups) + [(ts, x)];
  }

  lemma OutEffectFrame(s: State, ts: TsId, x: Tuple, woken: seq<Tid>, t: State)
    requires ts in s.spaces && OutEffect(s, ts, x, woken, t)
    ensures ts in t.spaces && t.spaces == s.spaces[ts := t.spaces[ts]] && t.spaces[ts].requests == s.spaces[ts].requests
    ensures t == s.(spaces := t.spaces, returning := t.returning, outs := s.outs + [(ts, x)], forwarded := t.forwarded)
  {
    hide Placed, Answers, AllDistinct;
  }

  lemma MoreWoken(s: State, ts: TsId, tups: seq<Tuple>, t: State, x: Tuple, woken: seq<Tid>, u: State)
    requires Delivered(s, ts, tups, t) && OutEffect(t, ts, x, woken, u)
    ensures WokenBy(s.spaces[ts].parked, tups + [x], u.spaces[ts].parked)
    ensures |s.returning| <= |u.returning| && u.returning[..|s.returning|] == s.returning
    ensures WokenAnswered(ts, s.spaces[ts].parked, u.spaces[ts].parked, u.returning[|s.returning|..])
  {
    hide Placed, Answers, AllDistinct, SentToAskers, NotAsked, NotTaken, Takers, WokenAnswered;
    var p, q, r := s.spaces[ts].parked, t.spaces[ts].parked, u.spaces[ts].parked;
    TakenByTaker(t, ts, x, woken, u);
    OutReplies(t, ts, x, woken, u);
    WokenToo(p, tups, q, x, r);
    var a, b := t.returning[|s.returning|..], Answers(ts, q, woken);
    RepliedToo(ts, p, q, r, a, b);
    assert t.returning == s.returning + a && u.returning == s.returning + (a + b);
  }

  lemma MorePlaced(s: State, ts: TsId, tups: seq<Tuple>, t: State, x: Tuple, woken: seq<Tid>, u: State)
    requires Delivered(s, ts, tups, t) && OutEffect(t, ts, x, woken, u)
    ensures var p := s.spaces[ts]; u.spaces[ts].contain == p.contain + NotAsked(p.requests, NotTaken(p.parked, tups + [x]))
    ensures |s.forwarded| <= |u.forwarded| && u.forwarded[..|s.forwarded|] == s.forwarded
    ensures SentToAskers(ts, s.spaces[ts].requests, NotTaken(s.spaces[ts].parked, tups + [x]), u.forwarded[|s.forwarded|..])
  {
    hide Placed, Answers, AllDistinct, SentToAskers, NotAsked, Takers, WokenAnswered;
    var p, q := s.spaces[ts], t.spaces[ts];
    var fs, left := t.forwarded[|s.forwarded|..], NotTaken(p.parked, tups);
    assert t.forwarded == s.forwarded + fs;
    TakenByTaker(t, ts, x, woken, u);
    var more := tups + [x];
    assert more[..|more| - 1] == tups && more[|more| - 1] == x;
    assert |Takers(q.parked, x)| == TakersLeft(|Takers(p.parked, x)|, multiset(tups)[x]);
    assert left + [] == left;
    if multiset(tups)[x] >= |Takers(p.parked, x)| {
      assert Takers(q.parked, x) == {};
      PlacedToo(ts, p, q, left, x, s.forwarded, fs, u.spaces[ts].contain, u.forwarded);
    } else {
      assert |Takers(q.parked, x)| > 0;
    }
  }

  /** A tuple put into a space is delivered, for any order in which the waiters are looked at. */
  lemma OneDelivers(s: State, ts: TsId, x: Tuple, order: seq<Tid>)
    requires ts in s.spaces && Lists(order, s.spaces[ts].parked) && IsActual(x)
    ensures Delivered(s, ts, [x], OutStep(s, ts, x, order))
  {
    hide Delivered, OutStep, IsActual, AllDistinct;
    DeliversNothing(s, ts);
    OutDelivers(s, ts, [], s, x, order);
    assert [] + [x] == [x];
  }

  /** So is one more after others. */
  lemma OutDelivers(s: State, ts: TsId, tups: seq<Tuple>, t: State, x: Tuple, order: seq<Tid>)
    requires Delivered(s, ts, tups, t) && Lists(order, t.spaces[ts].parked) && IsActual(x)
    ensures Delivered(s, ts, tups + [x], OutStep(t, ts, x, order))
  {
    hide Delivered, OutStep, OutEffect, IsActual, AllDistinct;
    DeliveredThere(s, ts, tups, t);
    OutDoes(t, ts, x, order);
    DeliversOneMore(s, ts, tups, t, x, Woken(t.spaces[ts].parked, order, x), OutStep(t, ts, x, order));
  }

  lemma DeliveredThere(s: State, ts: TsId, tups: seq<Tuple>, t: State)
    requires Delivered(s, ts, tups, t)
    ensures ts in s.spaces && t.spaces.Keys == s.spaces.Keys && forall x :: x in s.spaces && x != ts ==> t.spaces[x] == s.spaces[x]
  {
    hide WokenBy, WokenAnswered, SentToAskers, NotAsked, NotTaken;
  }

  // ---- How many of each ----------------------------------------------------------------------------

  /** Of n equal tuples put, as many are taken as there are takers; the others go to a node or stay. */
  lemma {:induction false} HowManyNotTaken(parked: map<Tid, Waiter>, tups: seq<Tuple>, x: Tuple)
    ensures multiset(NotTaken(parked, tups))[x] ==
      if multiset(tups)[x] < |Takers(parked, x)| then 0 else multiset(tups)[x] - |Takers(parked, x)|
  {
    hide Takers;
    if tups != [] {
      var init, last := tups[..|tups| - 1], tups[|tups| - 1];
      assert tups == init + [last];
      HowManyNotTaken(parked, init, x);
    }
  }

  lemma {:induction false} HowManyNotAsked(requests: seq<Request>, tups: seq<Tuple>, x: Tuple)
    ensures multiset(NotAsked(requests, tups))[x] == if AskedFor(requests, x) then 0 else multiset(tups)[x]
  {
    hide AskedFor;
    if tups != [] {
      var init, last := tups[..|tups| - 1], tups[|tups| - 1];
      assert tups == init + [last];
      HowManyNotAsked(requests, init, x);
    }
  }

  lemma {:induction false} HowManySent(ts: TsId, requests: seq<Request>, tups: seq<Tuple>, fs: seq<Forward>, x: Tuple)
    requires SentToAskers(ts, requests, tups, fs)
    ensures multiset(SentOn(fs))[(ts, x)] == if AskedFor(requests, x) then multiset(tups)[x] else 0
    ensures forall f :: f in fs ==> f.ts == ts && exists i: nat :: IsFirstFor(requests, f.tup, i) && f.node == requests[i].node
  {
    hide AskedFor, IsFirstFor;
    if tups != [] {
      var init, last := tups[..|tups| - 1], tups[|tups| - 1];
      assert tups == init + [last];
      if AskedFor(requests, last) {
        var gs, g := fs[..|fs| - 1], fs[|fs| - 1];
        assert fs == gs + [g] && SentOn(fs) == SentOn(gs) + [(g.ts, g.tup)];
        HowManySent(ts, requests, init, gs, x);
      } else {
        HowManySent(ts, requests, init, fs, x);
      }
    }
  }

  lemma NobodyTakes(parked: map<Tid, Waiter>, x: Tuple)
    requires parked == map[]
    ensures Takers(parked, x) == {}
  {
  }
}
