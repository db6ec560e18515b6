/** Putting, reading and taking tuples with waiting threads, on one server: TupleSpace in
    linda/src/linda/tuplespace.py and the handlers in linda/src/linda/server.py.

    Every operation under the tuplespace's lock is one step. The thread that _out starts for each thread it
    wakes, which sends the reply, is a step of its own. */
module TupleSpaceSteps {
  import opened TupleMatching
  import opened Options
  import opened Pigeonhole

  type TsId = string
  type Pid = string
  type Node = string

  /** A thread id holds the id of its process and a number. */
  datatype Tid = Tid(process: Pid, number: nat)

  /** An entry of blocked_list. */
  datatype Waiter = Waiter(pattern: Tuple, unblockable: bool, destructive: bool)

  datatype Request = Request(node: Node, pattern: Tuple)

  datatype Space = Space(contain: seq<Tuple>, parked: map<Tid, Waiter>, requests: seq<Request>)

  datatype Reply = ResultTuple(tup: Tuple) | Unblock

  /** A reply, sent or about to be sent: to which thread, and whether its tuple was taken out of space ts. */
  datatype Answer = Answer(tid: Tid, ts: TsId, destructive: bool, reply: Reply)

  /** A tuple sent on to another node. */
  datatype Forward = Forward(ts: TsId, tup: Tuple, node: Node)

  /** blocked is blocked_threads, threads is pthreads and counts is pthread_count. The rest is history: the
      threads that wait for an answer and in which space; those that are stranded, because the space they asked
      was missing or was deleted while they were parked in it; those that are forgotten, because their process left before their request was
      answered; the tuples put; the threads that asked; the replies sent, and those for which the thread was
      no longer known; and the tuples sent on to other nodes, taken by collect and deleted together with
      their space. */
  datatype State = State(
    spaces: map<TsId, Space>, blocked: map<Tid, TsId>, returning: seq<Answer>,
    threads: map<Pid, set<Tid>>, counts: map<Pid, nat>,
    waiting: map<Tid, TsId>, stranded: set<Tid>, forgotten: set<Tid>,
    outs: seq<(TsId, Tuple)>, asked: seq<Tid>, sent: seq<Answer>, lost: seq<Answer>,
    forwarded: seq<Forward>, collected: seq<(TsId, Tuple)>, dropped: seq<(TsId, Tuple)>)

  // ---- The steps -----------------------------------------------------------------------------------

  /** The threads woken by tup when the waiters are looked at in the given order: up to the first that
      takes it. */
  function Woken(parked: map<Tid, Waiter>, order: seq<Tid>, tup: Tuple): seq<Tid>
    requires forall tid :: tid in order ==> tid in parked
  {
    if order == [] then [] else
      var w := parked[order[0]];
      if !Matches(w.pattern, tup) then Woken(parked, order[1..], tup)
      else if w.destructive then [order[0]]
      else [order[0]] + Woken(parked, order[1..], tup)
  }

  function Caught(parked: map<Tid, Waiter>, order: seq<Tid>, tup: Tuple): bool
    requires forall tid :: tid in order ==> tid in parked
  {
    exists i :: 0 <= i < |order| && parked[order[i]].destructive && Matches(parked[order[i]].pattern, tup)
  }

  function FirstRequest(requests: seq<Request>, tup: Tuple): Option<Request> {
    if requests == [] then None
    else if Matches(requests[0].pattern, tup) then Some(requests[0])
    else FirstRequest(requests[1..], tup)
  }

  function WithoutKeys(m: map<Tid, Waiter>, tids: seq<Tid>): map<Tid, Waiter> {
    map tid | tid in m && tid !in tids :: m[tid]
  }

  /** The replies to woken threads; the matcher answers the waiter's pattern, not the tuple put. */
  function Answers(ts: TsId, parked: map<Tid, Waiter>, woken: seq<Tid>): seq<Answer>
    requires forall tid :: tid in woken ==> tid in parked
  {
    if woken == [] then [] else
      var w := parked[woken[0]];
      [Answer(woken[0], ts, w.destructive, ResultTuple(w.pattern))] + Answers(ts, parked, woken[1..])
  }

  ghost predicate Lists(order: seq<Tid>, parked: map<Tid, Waiter>) {
    AllDistinct(order) && forall tid :: tid in order <==> tid in parked
  }

  lemma {:induction false} WokenListed(parked: map<Tid, Waiter>, order: seq<Tid>, tup: Tuple)
    requires forall tid :: tid in order ==> tid in parked
    ensures forall tid :: tid in Woken(parked, order, tup) ==> tid in order
  {
    hide Matches;
    if order != [] {
      assert forall tid :: tid in order[1..] ==> tid in order;
      WokenListed(parked, order[1..], tup);
    }
  }

  ghost function OutStep(s: State, ts: TsId, tup: Tuple, order: seq<Tid>): State
    requires ts in s.spaces && Lists(order, s.spaces[ts].parked)
  {
    var p := s.spaces[ts];
    var woken := Woken(p.parked, order, tup);
    WokenListed(p.parked, order, tup);
    var q := p.(parked := WithoutKeys(p.parked, woken));
    var t := s.(outs := s.outs + [(ts, tup)], returning := s.returning + Answers(ts, p.parked, woken));
    if Caught(p.parked, order, tup) then t.(spaces := s.spaces[ts := q])
    else match FirstRequest(p.requests, tup)
      case Some(r) => t.(spaces := s.spaces[ts := q], forwarded := s.forwarded + [Forward(ts, r.pattern, r.node)])
      case None => t.(spaces := s.spaces[ts := q.(contain := p.contain + [tup])])
  }

  /** Reading (or, if destructive, taking) a tuple. The thread is recorded as blocked before the space is
      looked up, and stays recorded if that fails. */
  ghost function GetStep(s: State, ts: TsId, tid: Tid, pattern: Tuple, unblockable: bool, destructive: bool): State {
    if ts !in s.spaces then
      s.(asked := s.asked + [tid], blocked := s.blocked[tid := ts], stranded := s.stranded + {tid})
    else
      var p := s.spaces[ts];
      var found := Matching(p.contain, pattern);
      if found == [] then
        s.(asked := s.asked + [tid], blocked := s.blocked[tid := ts], waiting := s.waiting[tid := ts],
           spaces := s.spaces[ts := p.(parked := p.parked[tid := Waiter(pattern, unblockable, destructive)])])
      else
        s.(asked := s.asked + [tid], sent := s.sent + [Answer(tid, ts, destructive, ResultTuple(found[0]))],
           spaces := if destructive then s.spaces[ts := p.(contain := WithoutFirst(p.contain, found[0]))] else s.spaces)
  }

  /** A reply is sent if its thread is recorded as blocked; otherwise looking the thread up fails, after the
      waiter has gone from the blocked list. */
  ghost function Replied(s: State, a: Answer): State {
    var t := s.(waiting := s.waiting - {a.tid});
    if a.tid in s.blocked then t.(blocked := s.blocked - {a.tid}, sent := s.sent + [a])
    else t.(lost := s.lost + [a])
  }

  /** The thread started for the i-th woken waiter sends its reply. */
  ghost function ReturnStep(s: State, i: nat): State
    requires i < |s.returning|
  {
    Replied(s, s.returning[i]).(returning := s.returning[..i] + s.returning[i + 1..])
  }

  ghost function UnblockStep(s: State, ts: TsId, tid: Tid): State
    requires ts in s.spaces && tid in s.spaces[ts].parked
  {
    var p := s.spaces[ts];
    Replied(s, Answer(tid, ts, p.parked[tid].destructive, Unblock)).(spaces := s.spaces[ts := p.(parked := p.parked - {tid})])
  }

  function Labelled(ts: TsId, tups: seq<Tuple>): seq<(TsId, Tuple)> {
    seq(|tups|, i requires 0 <= i < |tups| => (ts, tups[i]))
  }

  ghost function CollectStep(s: State, ts: TsId, pattern: Tuple): State
    requires ts in s.spaces
  {
    var p := s.spaces[ts];
    s.(spaces := s.spaces[ts := p.(contain := NotMatching(p.contain, pattern))],
       collected := s.collected + Labelled(ts, Matching(p.contain, pattern)))
  }

  /** A space is deleted, with the tuples it holds and the list of the threads parked in it. */
  ghost function DropStep(s: State, ts: TsId): State
    requires ts in s.spaces
  {
    var parked := s.spaces[ts].parked.Keys;
    s.(spaces := s.spaces - {ts}, waiting := s.waiting - parked, stranded := s.stranded + parked,
       dropped := s.dropped + Labelled(ts, s.spaces[ts].contain))
  }

  ghost function ThreadsOf(m: map<Tid, TsId>, pid: Pid): set<Tid> {
    set tid | tid in m && tid.process == pid
  }

  /** A process leaves: its threads are no longer recorded as blocked, wherever they are parked. */
  ghost function LeaveStep(s: State, pid: Pid): State {
    var gone := ThreadsOf(s.blocked, pid);
    s.(threads := s.threads - {pid}, blocked := s.blocked - gone, forgotten := s.forgotten + gone)
  }

  /** A thread leaves, and its process with it if it was the last. */
  ghost function ThreadLeaveStep(s: State, tid: Tid): State
    requires tid.process in s.threads
  {
    var rest := s.threads[tid.process] - {tid};
    var t := s.(threads := s.threads[tid.process := rest]);
    if rest != {} then t else LeaveStep(t, tid.process)
  }

  /** A thread registers; its number is counted up even if the process has left. */
  ghost function RegisterStep(s: State, pid: Pid): State
    requires pid in s.counts
  {
    var n := s.counts[pid] + 1;
    s.(counts := s.counts[pid := n],
       threads := if pid in s.threads then s.threads[pid := s.threads[pid] + {Tid(pid, n)}] else s.threads)
  }

  // ---- What every step keeps -----------------------------------------------------------------------

  /** How often tup left space ts in a reply. */
  function TakenBy(answers: seq<Answer>, ts: TsId, tup: Tuple): nat {
    if answers == [] then 0 else
      var a := answers[0];
      (if a.ts == ts && a.destructive && a.reply == ResultTuple(tup) then 1 else 0) + TakenBy(answers[1..], ts, tup)
  }

  function AnsweredTo(answers: seq<Answer>, tid: Tid): nat {
    if answers == [] then 0 else (if answers[0].tid == tid then 1 else 0) + AnsweredTo(answers[1..], tid)
  }

  /** What was sent on, from which space. */
  function SentOn(fs: seq<Forward>): seq<(TsId, Tuple)> {
    seq(|fs|, i requires 0 <= i < |fs| => (fs[i].ts, fs[i].tup))
  }

  function Stored(s: State, ts: TsId): seq<Tuple> {
    if ts in s.spaces then s.spaces[ts].contain else []
  }

  /** Every tuple put is stored, or went to exactly one taker, known or not, forwarding, collect or deletion. */
  ghost predicate Conserved(s: State) {
    forall ts, tup ::
      multiset(s.outs)[(ts, tup)] == multiset(Stored(s, ts))[tup] + TakenBy(s.sent, ts, tup) + TakenBy(s.lost, ts, tup) +
        TakenBy(s.returning, ts, tup) + multiset(SentOn(s.forwarded))[(ts, tup)] + multiset(s.collected)[(ts, tup)] + multiset(s.dropped)[(ts, tup)]
  }

  ghost predicate ParkedIn(s: State, ts: TsId, tid: Tid) {
    ts in s.spaces && tid in s.spaces[ts].parked
  }

  /** A parked thread waits for an answer from that space, and no reply to it is on its way. */
  ghost predicate ParkedWait(s: State) {
    forall ts, tid :: ParkedIn(s, ts, tid) ==>
      tid in s.waiting && s.waiting[tid] == ts && AnsweredTo(s.returning, tid) == 0
  }

  /** A thread that waits is parked where it asked or gets one reply. */
  ghost predicate WaitingPend(s: State) {
    forall tid :: tid in s.waiting ==> AnsweredTo(s.returning, tid) == if ParkedIn(s, s.waiting[tid], tid) then 0 else 1
  }

  ghost predicate ReturningWait(s: State) {
    forall tid :: AnsweredTo(s.returning, tid) > 0 ==> tid in s.waiting
  }

  /** Each request is answered once, or its reply was lost, or its thread still waits or is stranded. */
  ghost predicate AnsweredOnce(s: State) {
    forall tid :: multiset(s.asked)[tid] == AnsweredTo(s.sent, tid) + AnsweredTo(s.lost, tid) +
      (if tid in s.waiting then 1 else 0) + (if tid in s.stranded then 1 else 0)
  }

  /** The record of blocked threads has the threads that wait or are stranded but those forgotten; only these
      lose replies. */
  ghost predicate Recorded(s: State) {
    && (forall tid :: tid in s.stranded ==> tid !in s.waiting)
    && (forall tid :: tid in s.blocked <==> (tid in s.waiting || tid in s.stranded) && tid !in s.forgotten)
    && (forall tid :: tid in s.blocked && tid in s.waiting ==> s.blocked[tid] == s.waiting[tid])
    && (forall tid :: AnsweredTo(s.lost, tid) > 0 ==> tid in s.forgotten)
  }

  /** The thread has no request that is not answered. */
  ghost predicate Idle(s: State, tid: Tid) {
    tid !in s.waiting && tid !in s.stranded && tid !in s.forgotten
  }

  /** A template of actual values is not left waiting for a tuple that is stored. */
  ghost predicate NoneOverlooked(p: Space) {
    && AllActual(p.contain)
    && forall tid, t :: tid in p.parked && t in p.contain && IsActual(p.parked[tid].pattern) ==> !Matches(t, p.parked[tid].pattern)
  }

  ghost predicate Inv(s: State) {
    && Conserved(s)
    && ParkedWait(s) && WaitingPend(s) && ReturningWait(s)
    && AnsweredOnce(s) && Recorded(s)
    && forall ts :: ts in s.spaces ==> NoneOverlooked(s.spaces[ts])
  }

  // ---- Waking --------------------------------------------------------------------------------------

  /** Who is woken: waiters whose pattern is the tuple put; all of them if none of them takes it, and else
      exactly one that takes it and some that only read it. */
  lemma {:induction false} WokenMeaning(parked: map<Tid, Waiter>, order: seq<Tid>, tup: Tuple)
    requires (forall tid :: tid in order ==> tid in parked) && AllDistinct(order) && IsActual(tup)
    ensures var woken := Woken(parked, order, tup);
      && AllDistinct(woken)
      && (forall tid :: tid in woken ==> tid in order && parked[tid].pattern == tup)
      && (!Caught(parked, order, tup) ==> forall tid :: tid in order && parked[tid].pattern == tup ==> tid in woken && !parked[tid].destructive)
      && (Caught(parked, order, tup) ==> woken != [] && parked[woken[|woken| - 1]].destructive)
      && (forall i :: 0 <= i < |woken| - 1 ==> !parked[woken[i]].destructive)
  {
    hide Matches, Caught;
    if order != [] {
      var first, rest := order[0], order[1..];
      assert order == [first] + rest && first in order;
      assert forall tid :: tid in rest ==> tid in order;
      WokenMeaning(parked, rest, tup);
      WokenListed(parked, rest, tup);
      MatchesActual(parked[first].pattern, tup);
      CaughtFrom(parked, order, tup);
    } else {
      NobodyLeft(parked, tup);
    }
  }

  lemma NobodyLeft(p: map<Tid, Waiter>, tup: Tuple)
    ensures Woken(p, [], tup) == [] && !Caught(p, [], tup)
  {
  }

  lemma CaughtFrom(parked: map<Tid, Waiter>, order: seq<Tid>, tup: Tuple)
    requires order != [] && forall tid :: tid in order ==> tid in parked
    ensures (forall tid :: tid in order[1..] ==> tid in parked)
    ensures Caught(parked, order, tup) <==> (parked[order[0]].destructive && Matches(parked[order[0]].pattern, tup)) || Caught(parked, order[1..], tup)
  {
    hide Matches;
    var rest := order[1..];
    assert forall tid :: tid in rest ==> tid in order;
    if i :| 0 <= i < |order| && parked[order[i]].destructive && Matches(parked[order[i]].pattern, tup) {
      assert i == 0 || rest[i - 1] == order[i];
    }
    if i :| 0 <= i < |rest| && parked[rest[i]].destructive && Matches(parked[rest[i]].pattern, tup) {
      assert rest[i] == order[i + 1];
    }
  }

  lemma {:induction false} TakenByJoin(a: seq<Answer>, b: seq<Answer>, ts: TsId, tup: Tuple)
    ensures TakenBy(a + b, ts, tup) == TakenBy(a, ts, tup) + TakenBy(b, ts, tup)
  {
    if a == [] {
      assert a + b == b;
    } else {
      assert (a + b)[0] == a[0] && (a + b)[1..] == a[1..] + b;
      TakenByJoin(a[1..], b, ts, tup);
    }
  }

  lemma {:induction false} AnsweredToJoin(a: seq<Answer>, b: seq<Answer>, tid: Tid)
    ensures AnsweredTo(a + b, tid) == AnsweredTo(a, tid) + AnsweredTo(b, tid)
  {
    if a == [] {
      assert a + b == b;
    } else {
      assert (a + b)[0] == a[0] && (a + b)[1..] == a[1..] + b;
      AnsweredToJoin(a[1..], b, tid);
    }
  }

  lemma {:induction false} AnswersGoTo(ts: TsId, parked: map<Tid, Waiter>, woken: seq<Tid>, tid: Tid)
    requires AllDistinct(woken) && forall x :: x in woken ==> x in parked
    ensures AnsweredTo(Answers(ts, parked, woken), tid) == if tid in woken then 1 else 0
  {
    if woken != [] {
      assert woken == [woken[0]] + woken[1..] && woken[0] in woken;
      assert forall x :: x in woken[1..] ==> x in woken;
      AnswersGoTo(ts, parked, woken[1..], tid);
    }
  }

  /** Of the woken only the last may take, and what it takes is the tuple put. */
  lemma {:induction false} AnswersTake(ts: TsId, parked: map<Tid, Waiter>, woken: seq<Tid>, tup: Tuple, ts': TsId, t: Tuple)
    requires forall x :: x in woken ==> x in parked && parked[x].pattern == tup
    requires forall i :: 0 <= i < |woken| - 1 ==> !parked[woken[i]].destructive
    ensures TakenBy(Answers(ts, parked, woken), ts', t) ==
      if ts' == ts && t == tup && woken != [] && parked[woken[|woken| - 1]].destructive then 1 else 0
  {
    if woken != [] {
      assert woken[0] in woken && forall x :: x in woken[1..] ==> x in woken;
      if |woken| > 1 {
        assert forall i :: 0 <= i < |woken[1..]| - 1 ==> woken[1..][i] == woken[i + 1];
        assert woken[1..][|woken[1..]| - 1] == woken[|woken| - 1];
      }
      AnswersTake(ts, parked, woken[1..], tup, ts', t);
    }
  }

  /** The i-th request is the first for exactly this tuple. */
  ghost predicate IsFirstFor(requests: seq<Request>, tup: Tuple, i: nat) {
    i < |requests| && requests[i].pattern == tup && forall j :: 0 <= j < i ==> requests[j].pattern != tup
  }

  /** The first request for exactly the tuple put, if there is one. */
  lemma {:induction false} FirstRequestIs(requests: seq<Request>, tup: Tuple)
    requires IsActual(tup)
    ensures var r := FirstRequest(requests, tup);
      && (r.Some? <==> exists x :: x in requests && x.pattern == tup)
      && (r.Some? ==> r.value in requests)
      && forall i: nat :: IsFirstFor(requests, tup, i) ==> r == Some(requests[i])
  {
    if requests != [] {
      MatchesActual(requests[0].pattern, tup);
      hide Matches;
      var rest := requests[1..];
      assert requests == [requests[0]] + rest && requests[0] in requests;
      FirstRequestIs(rest, tup);
      forall i: nat | IsFirstFor(requests, tup, i)
        ensures FirstRequest(requests, tup) == Some(requests[i])
      {
        if i > 0 {
          assert requests[0].pattern != tup;
          assert forall j :: 0 <= j < i - 1 ==> rest[j] == requests[j + 1];
          assert IsFirstFor(rest, tup, i - 1);
        }
      }
    }
  }

  lemma FirstFor(requests: seq<Request>, tup: Tuple) returns (i: nat)
    requires exists x :: x in requests && x.pattern == tup
    ensures IsFirstFor(requests, tup, i)
  {
    i := 0;
    while requests[i].pattern != tup
      invariant i < |requests| && forall j :: 0 <= j < i ==> requests[j].pattern != tup
      decreases |requests| - i
    {
      var x :| x in requests && x.pattern == tup;
      i := i + 1;
    }
  }

  // ---- _out ----------------------------------------------------------------------------------------

  /** A tuple that nobody takes goes to the first node that asked for exactly it, or else is stored. */
  ghost predicate Placed(ts: TsId, p: Space, tup: Tuple, contain: seq<Tuple>, before: seq<Forward>, after: seq<Forward>) {
    if exists r :: r in p.requests && r.pattern == tup then
      && contain == p.contain
      && exists i: nat :: IsFirstFor(p.requests, tup, i) && after == before + [Forward(ts, tup, p.requests[i].node)]
    else contain == p.contain + [tup] && after == before
  }

  lemma PlacesIt(ts: TsId, p: Space, tup: Tuple, before: seq<Forward>)
    requires IsActual(tup)
    ensures match FirstRequest(p.requests, tup)
            case Some(r) => Placed(ts, p, tup, p.contain, before, before + [Forward(ts, r.pattern, r.node)])
            case None => Placed(ts, p, tup, p.contain + [tup], before, before)
  {
    FirstRequestIs(p.requests, tup);
    if r :| r in p.requests && r.pattern == tup {
      var i := FirstFor(p.requests, tup);
      assert IsFirstFor(p.requests, tup, i);
    }
    hide FirstRequest;
  }

  /** What a step of _out does, in terms of what equals the tuple put. */
  ghost predicate OutEffect(s: State, ts: TsId, tup: Tuple, woken: seq<Tid>, t: State)
    requires ts in s.spaces
  {
    var p := s.spaces[ts];
    && t.spaces.Keys == s.spaces.Keys && (forall x :: x in s.spaces && x != ts ==> t.spaces[x] == s.spaces[x])
    && AllDistinct(woken) && (forall tid :: tid in woken ==> tid in p.parked && p.parked[tid].pattern == tup)
    && t.spaces[ts].parked == WithoutKeys(p.parked, woken) && t.spaces[ts].requests == p.requests
    && t.returning == s.returning + Answers(ts, p.parked, woken)
    && t == s.(outs := s.outs + [(ts, tup)], spaces := t.spaces, returning := t.returning, forwarded := t.forwarded)
    && (forall i :: 0 <= i < |woken| - 1 ==> !p.parked[woken[i]].destructive)
    && if woken != [] && p.parked[woken[|woken| - 1]].destructive then t.spaces[ts].contain == p.contain && t.forwarded == s.forwarded
       else
         && (forall tid :: tid in p.parked && p.parked[tid].pattern == tup ==> tid in woken)
         && Placed(ts, p, tup, t.spaces[ts].contain, s.forwarded, t.forwarded)
  }

  /** A tuple put into a space wakes the waiters whose template it equals: all of them while they only read,
      up to the first that takes it. If none takes it, it goes to a node that asked for exactly it, or is
      stored. */
  lemma OutDoes(s: State, ts: TsId, tup: Tuple, order: seq<Tid>)
    requires ts in s.spaces && Lists(order, s.spaces[ts].parked) && IsActual(tup)
    ensures OutEffect(s, ts, tup, Woken(s.spaces[ts].parked, order, tup), OutStep(s, ts, tup, order))
  {
    hide Matches, AllDistinct, Answers, WithoutKeys, Woken, Caught, FirstRequest;
    var p := s.spaces[ts];
    WokenMeaning(p.parked, order, tup);
    PlacesIt(ts, p, tup, s.forwarded);
    hide Placed;
    var woken := Woken(p.parked, order, tup);
    if woken != [] {
      assert woken[|woken| - 1] in woken;
    }
  }

  lemma OutConserves(s: State, ts: TsId, tup: Tuple, woken: seq<Tid>, t: State)
    requires ts in s.spaces && OutEffect(s, ts, tup, woken, t) && Conserved(s)
    ensures Conserved(t)
  {
    hide OutEffect, TakenBy, Stored;
    forall ts', tup'
      ensures multiset(t.outs)[(ts', tup')] == multiset(Stored(t, ts'))[tup'] + TakenBy(t.sent, ts', tup') + TakenBy(t.lost, ts', tup') +
        TakenBy(t.returning, ts', tup') + multiset(SentOn(t.forwarded))[(ts', tup')] + multiset(t.collected)[(ts', tup')] + multiset(t.dropped)[(ts', tup')]
    {
      OutTakes(s, ts, tup, woken, t, ts', tup');
      OutStores(s, ts, tup, woken, t, ts', tup');
    }
  }

  lemma OutTakes(s: State, ts: TsId, tup: Tuple, woken: seq<Tid>, t: State, ts': TsId, tup': Tuple)
    requires ts in s.spaces && OutEffect(s, ts, tup, woken, t)
    ensures woken != [] ==> woken[|woken| - 1] in s.spaces[ts].parked
    ensures TakenBy(t.returning, ts', tup') == TakenBy(s.returning, ts', tup') +
      if ts' == ts && tup' == tup && woken != [] && s.spaces[ts].parked[woken[|woken| - 1]].destructive then 1 else 0
  {
    hide AllDistinct, Answers, WithoutKeys, TakenBy;
    var p := s.spaces[ts];
    if woken != [] {
      assert woken[|woken| - 1] in woken;
    }
    TakenByJoin(s.returning, Answers(ts, p.parked, woken), ts', tup');
    AnswersTake(ts, p.parked, woken, tup, ts', tup');
  }

  lemma OutStores(s: State, ts: TsId, tup: Tuple, woken: seq<Tid>, t: State, ts': TsId, tup': Tuple)
    requires ts in s.spaces && OutEffect(s, ts, tup, woken, t)
    requires woken != [] ==> woken[|woken| - 1] in s.spaces[ts].parked
    ensures t.sent == s.sent && t.lost == s.lost && t.collected == s.collected && t.dropped == s.dropped
    ensures var one := if ts' == ts && tup' == tup then 1 else 0;
      && multiset(t.outs)[(ts', tup')] == multiset(s.outs)[(ts', tup')] + one
      && multiset(Stored(t, ts'))[tup'] + multiset(SentOn(t.forwarded))[(ts', tup')] == multiset(Stored(s, ts'))[tup'] + multiset(SentOn(s.forwarded))[(ts', tup')] +
        if woken != [] && s.spaces[ts].parked[woken[|woken| - 1]].destructive then 0 else one
  {
    hide AllDistinct, Answers, WithoutKeys;
    SentOnAlso(s.forwarded, t.forwarded, ts, tup);
    hide SentOn;
  }

  lemma SentOnAlso(a: seq<Forward>, b: seq<Forward>, ts: TsId, tup: Tuple)
    ensures forall node :: b == a + [Forward(ts, tup, node)] ==> multiset(SentOn(b)) == multiset(SentOn(a)) + multiset{(ts, tup)}
  {
    forall node | b == a + [Forward(ts, tup, node)]
      ensures multiset(SentOn(b)) == multiset(SentOn(a)) + multiset{(ts, tup)}
    {
      assert SentOn(b) == SentOn(a) + [(ts, tup)];
    }
  }

  lemma OutAnswers(s: State, ts: TsId, tup: Tuple, woken: seq<Tid>, t: State, tid: Tid)
    requires ts in s.spaces && OutEffect(s, ts, tup, woken, t)
    ensures AnsweredTo(t.returning, tid) == AnsweredTo(s.returning, tid) + if tid in woken then 1 else 0
  {
    hide AnsweredTo, Answers;
    var p := s.spaces[ts];
    AnswersGoTo(ts, p.parked, woken, tid);
    AnsweredToJoin(s.returning, Answers(ts, p.parked, woken), tid);
  }

  lemma OutParks(s: State, ts: TsId, tup: Tuple, woken: seq<Tid>, t: State, tid: Tid)
    requires ts in s.spaces && OutEffect(s, ts, tup, woken, t)
    ensures t.waiting == s.waiting && (tid in woken ==> tid in s.spaces[ts].parked)
    ensures forall x :: ParkedIn(t, x, tid) <==> ParkedIn(s, x, tid) && !(x == ts && tid in woken)
  {
    hide AnsweredTo, Answers, AllDistinct;
  }

  lemma OutKeepsBlocked(s: State, ts: TsId, tup: Tuple, woken: seq<Tid>, t: State)
    requires ts in s.spaces && OutEffect(s, ts, tup, woken, t)
    requires ParkedWait(s) && WaitingPend(s) && ReturningWait(s)
    ensures ParkedWait(t) && WaitingPend(t) && ReturningWait(t)
  {
    hide OutEffect, AnsweredTo;
    forall x, tid | ParkedIn(t, x, tid)
      ensures tid in t.waiting && t.waiting[tid] == x && AnsweredTo(t.returning, tid) == 0
    {
      OutAnswers(s, ts, tup, woken, t, tid);
      OutParks(s, ts, tup, woken, t, tid);
      assert ParkedIn(s, x, tid) && (tid in woken ==> ParkedIn(s, ts, tid));
    }
    forall tid
      ensures tid in t.waiting ==> AnsweredTo(t.returning, tid) == if ParkedIn(t, t.waiting[tid], tid) then 0 else 1
      ensures AnsweredTo(t.returning, tid) > 0 ==> tid in t.waiting
    {
      OutAnswers(s, ts, tup, woken, t, tid);
      OutParks(s, ts, tup, woken, t, tid);
      assert tid in woken ==> ParkedIn(s, ts, tid);
    }
  }

  lemma OutOverlooksNone(s: State, ts: TsId, tup: Tuple, woken: seq<Tid>, t: State)
    requires ts in s.spaces && OutEffect(s, ts, tup, woken, t) && IsActual(tup) && NoneOverlooked(s.spaces[ts])
    ensures NoneOverlooked(t.spaces[ts])
  {
    hide Matches, AllDistinct, Answers;
    var p, q := s.spaces[ts], t.spaces[ts];
    forall tid, x | tid in q.parked && x in q.contain && IsActual(q.parked[tid].pattern)
      ensures !Matches(x, q.parked[tid].pattern)
    {
      MatchesActual(x, q.parked[tid].pattern);
      if x !in p.contain {
        assert x == tup;
      }
    }
  }

  lemma OutKeepsInv(s: State, ts: TsId, tup: Tuple, order: seq<Tid>)
    requires Inv(s) && ts in s.spaces && Lists(order, s.spaces[ts].parked) && IsActual(tup)
    ensures Inv(OutStep(s, ts, tup, order))
  {
    hide Conserved, ParkedWait, WaitingPend, ReturningWait, NoneOverlooked, OutStep, Woken, Matches, Answers, WithoutKeys, AllDistinct, IsActual;
    var woken, t := Woken(s.spaces[ts].parked, order, tup), OutStep(s, ts, tup, order);
    OutDoes(s, ts, tup, order);
    OutConserves(s, ts, tup, woken, t);
    OutKeepsBlocked(s, ts, tup, woken, t);
    OutOverlooksNone(s, ts, tup, woken, t);
  }

  // ---- rd and in -----------------------------------------------------------------------------------

  lemma {:induction false} NothingMatching(contain: seq<Tuple>, pattern: Tuple)
    requires Matching(contain, pattern) == []
    ensures forall t :: t in contain ==> !Matches(t, pattern)
  {
    MatchingSplits(contain, pattern);
    hide Matches;
    assert forall t :: t in contain && Matches(t, pattern) ==> t in Matching(contain, pattern);
  }

  /** A thread that finds nothing is parked. */
  lemma ParkKeepsInv(s: State, ts: TsId, tid: Tid, pattern: Tuple, unblockable: bool, destructive: bool)
    requires Inv(s) && ts in s.spaces && Idle(s, tid) && Matching(s.spaces[ts].contain, pattern) == []
    ensures Inv(GetStep(s, ts, tid, pattern, unblockable, destructive))
  {
    hide Matches, AnsweredTo, Conserved, ParkedWait, WaitingPend, ReturningWait, NoneOverlooked, Matching, AnsweredOnce, Recorded;
    var t := GetStep(s, ts, tid, pattern, unblockable, destructive);
    ParkBlocks(s, ts, tid, Waiter(pattern, unblockable, destructive), t);
    ParkOverlooksNone(s.spaces[ts], tid, Waiter(pattern, unblockable, destructive));
    SameContents(s, t);
    ParkAsks(s, ts, tid, t);
    ParkRecords(s, ts, tid, t);
  }

  lemma ParkAsks(s: State, ts: TsId, tid: Tid, t: State)
    requires AnsweredOnce(s) && Idle(s, tid) && t.stranded == s.stranded
    requires t.asked == s.asked + [tid] && t.sent == s.sent && t.lost == s.lost && t.waiting == s.waiting[tid := ts]
    ensures AnsweredOnce(t)
  {
    hide AnsweredTo;
    forall x
      ensures multiset(t.asked)[x] == AnsweredTo(t.sent, x) + AnsweredTo(t.lost, x) +
        (if x in t.waiting then 1 else 0) + (if x in t.stranded then 1 else 0)
    {
      AskedAlso(s.asked, tid);
      assert x in t.waiting <==> x == tid || x in s.waiting;
    }
  }

  lemma ParkRecords(s: State, ts: TsId, tid: Tid, t: State)
    requires Recorded(s) && Idle(s, tid) && t.lost == s.lost && t.forgotten == s.forgotten && t.stranded == s.stranded
    requires t.waiting == s.waiting[tid := ts] && t.blocked == s.blocked[tid := ts]
    ensures Recorded(t)
  {
    hide AnsweredTo;
  }

  lemma AskedAlso(asked: seq<Tid>, tid: Tid)
    ensures forall x :: multiset(asked + [tid])[x] == multiset(asked)[x] + if x == tid then 1 else 0
  {
    assert multiset(asked + [tid]) == multiset(asked) + multiset{tid};
  }

  lemma SameContents(s: State, t: State)
    requires Conserved(s) && t.spaces.Keys == s.spaces.Keys && forall ts :: ts in s.spaces ==> t.spaces[ts].contain == s.spaces[ts].contain
    requires t.outs == s.outs && t.returning == s.returning && t.forwarded == s.forwarded && t.collected == s.collected
    requires t.dropped == s.dropped && t.sent == s.sent && t.lost == s.lost
    ensures Conserved(t)
  {
    hide TakenBy;
  }

  lemma ParkBlocks(s: State, ts: TsId, tid: Tid, w: Waiter, t: State)
    requires ParkedWait(s) && WaitingPend(s) && ReturningWait(s) && ts in s.spaces && tid !in s.waiting
    requires t.returning == s.returning && t.waiting == s.waiting[tid := ts]
    requires t.spaces == s.spaces[ts := s.spaces[ts].(parked := s.spaces[ts].parked[tid := w])]
    ensures ParkedWait(t) && WaitingPend(t) && ReturningWait(t)
  {
    hide AnsweredTo;
    assert AnsweredTo(s.returning, tid) == 0;
    assert forall x, y :: ParkedIn(t, x, y) <==> ParkedIn(s, x, y) || (x == ts && y == tid);
    forall x, y | ParkedIn(t, x, y)
      ensures y in t.waiting && t.waiting[y] == x && AnsweredTo(t.returning, y) == 0
    {
      assert y != tid ==> ParkedIn(s, x, y);
      assert y == tid ==> !ParkedIn(s, x, y);
    }
  }

  lemma ParkOverlooksNone(p: Space, tid: Tid, w: Waiter)
    requires NoneOverlooked(p) && Matching(p.contain, w.pattern) == []
    ensures NoneOverlooked(p.(parked := p.parked[tid := w]))
  {
    NothingMatching(p.contain, w.pattern);
    hide Matches, Matching;
  }

  /** A thread that finds a tuple gets it at once. */
  lemma FoundKeepsInv(s: State, ts: TsId, tid: Tid, pattern: Tuple, unblockable: bool, destructive: bool)
    requires Inv(s) && ts in s.spaces && Idle(s, tid) && Matching(s.spaces[ts].contain, pattern) != []
    ensures Inv(GetStep(s, ts, tid, pattern, unblockable, destructive))
  {
    hide Matches, AnsweredTo, Conserved, ParkedWait, WaitingPend, ReturningWait, NoneOverlooked, Matching, WithoutFirst, AnsweredOnce;
    var p, t := s.spaces[ts], GetStep(s, ts, tid, pattern, unblockable, destructive);
    var found := Matching(p.contain, pattern)[0];
    FoundStored(p.contain, pattern);
    FoundConserves(s, ts, tid, found, destructive, t);
    FewerOverlooked(p, WithoutFirst(p.contain, found), found);
    SameBlocked(s, t);
    FoundAnswers(s, Answer(tid, ts, destructive, ResultTuple(found)), t);
  }

  lemma FoundStored(contain: seq<Tuple>, pattern: Tuple)
    requires Matching(contain, pattern) != []
    ensures Matching(contain, pattern)[0] in contain
  {
    MatchingSplits(contain, pattern);
    assert Matching(contain, pattern)[0] in Matching(contain, pattern);
  }

  lemma FoundAnswers(s: State, a: Answer, t: State)
    requires AnsweredOnce(s) && t.asked == s.asked + [a.tid] && t.sent == s.sent + [a] && t.lost == s.lost && t.waiting == s.waiting && t.stranded == s.stranded
    ensures AnsweredOnce(t)
  {
    hide AnsweredTo;
    AskedAlso(s.asked, a.tid);
    SentAlso(s.sent, a);
  }

  lemma SentAlso(sent: seq<Answer>, a: Answer)
    ensures forall x :: AnsweredTo(sent + [a], x) == AnsweredTo(sent, x) + if x == a.tid then 1 else 0
  {
    forall x
      ensures AnsweredTo(sent + [a], x) == AnsweredTo(sent, x) + if x == a.tid then 1 else 0
    {
      AnsweredToJoin(sent, [a], x);
    }
  }

  lemma SameBlocked(s: State, t: State)
    requires ParkedWait(s) && WaitingPend(s) && ReturningWait(s)
    requires t.returning == s.returning && t.waiting == s.waiting && t.spaces.Keys == s.spaces.Keys
    requires forall ts :: ts in s.spaces ==> t.spaces[ts].parked == s.spaces[ts].parked
    ensures ParkedWait(t) && WaitingPend(t) && ReturningWait(t)
  {
    hide AnsweredTo;
    assert forall x, y :: ParkedIn(t, x, y) <==> ParkedIn(s, x, y);
  }

  lemma FewerOverlooked(p: Space, contain: seq<Tuple>, found: Tuple)
    requires NoneOverlooked(p) && (contain == WithoutFirst(p.contain, found) || forall t :: t in contain ==> t in p.contain)
    ensures NoneOverlooked(p.(contain := contain))
  {
    WithoutFirstRemoves(p.contain, found);
    forall t | t in contain
      ensures t in p.contain
    {
      assert t in multiset(contain);
    }
    hide WithoutFirst, Matches, IsActual;
  }

  lemma FoundSent(sent: seq<Answer>, a: Answer, found: Tuple, ts': TsId, tup': Tuple)
    requires a.reply == ResultTuple(found)
    ensures TakenBy(sent + [a], ts', tup') == TakenBy(sent, ts', tup') + if a.ts == ts' && a.destructive && tup' == found then 1 else 0
  {
    TakenByJoin(sent, [a], ts', tup');
  }

  lemma FoundLeaves(s: State, ts: TsId, found: Tuple, destructive: bool, t: State, ts': TsId, tup': Tuple)
    requires ts in s.spaces && found in s.spaces[ts].contain
    requires t.spaces == if destructive then s.spaces[ts := s.spaces[ts].(contain := WithoutFirst(s.spaces[ts].contain, found))] else s.spaces
    ensures multiset(Stored(s, ts'))[tup'] == multiset(Stored(t, ts'))[tup'] + if ts == ts' && destructive && tup' == found then 1 else 0
  {
    hide WithoutFirst;
    WithoutFirstRemoves(s.spaces[ts].contain, found);
  }

  lemma FoundConserves(s: State, ts: TsId, tid: Tid, found: Tuple, destructive: bool, t: State)
    requires ts in s.spaces && Conserved(s) && found in s.spaces[ts].contain
    requires t.spaces == if destructive then s.spaces[ts := s.spaces[ts].(contain := WithoutFirst(s.spaces[ts].contain, found))] else s.spaces
    requires t.outs == s.outs && t.returning == s.returning && t.forwarded == s.forwarded && t.collected == s.collected
    requires t.dropped == s.dropped && t.lost == s.lost && t.sent == s.sent + [Answer(tid, ts, destructive, ResultTuple(found))]
    ensures Conserved(t)
  {
    hide WithoutFirst, TakenBy, Stored;
    forall ts', tup'
      ensures TakenBy(t.sent, ts', tup') == TakenBy(s.sent, ts', tup') + if ts == ts' && destructive && tup' == found then 1 else 0
      ensures multiset(Stored(s, ts'))[tup'] == multiset(Stored(t, ts'))[tup'] + if ts == ts' && destructive && tup' == found then 1 else 0
    {
      FoundSent(s.sent, Answer(tid, ts, destructive, ResultTuple(found)), found, ts', tup');
      FoundLeaves(s, ts, found, destructive, t, ts', tup');
    }
  }

  /** A thread that asks in a space that is missing stays recorded, and gets no answer. */
  lemma MissingKeepsInv(s: State, ts: TsId, tid: Tid, t: State)
    requires Inv(s) && ts !in s.spaces && Idle(s, tid)
    requires t == s.(asked := s.asked + [tid], blocked := s.blocked[tid := ts], stranded := s.stranded + {tid})
    ensures Inv(t)
  {
    hide AnsweredTo, Conserved, ParkedWait, WaitingPend, ReturningWait, NoneOverlooked, AnsweredOnce;
    SameContents(s, t);
    SameBlocked(s, t);
    MissingAsks(s, tid, t);
  }

  lemma MissingAsks(s: State, tid: Tid, t: State)
    requires AnsweredOnce(s) && Idle(s, tid) && t.waiting == s.waiting && t.sent == s.sent && t.lost == s.lost
    requires t.asked == s.asked + [tid] && t.stranded == s.stranded + {tid}
    ensures AnsweredOnce(t)
  {
    hide AnsweredTo;
    AskedAlso(s.asked, tid);
  }

  lemma GetKeepsInv(s: State, ts: TsId, tid: Tid, pattern: Tuple, unblockable: bool, destructive: bool)
    requires Inv(s) && Idle(s, tid)
    ensures Inv(GetStep(s, ts, tid, pattern, unblockable, destructive))
  {
    hide Inv, Idle;
    if ts !in s.spaces {
      MissingKeepsInv(s, ts, tid, GetStep(s, ts, tid, pattern, unblockable, destructive));
    } else if Matching(s.spaces[ts].contain, pattern) == [] {
      ParkKeepsInv(s, ts, tid, pattern, unblockable, destructive);
    } else {
      FoundKeepsInv(s, ts, tid, pattern, unblockable, destructive);
    }
  }

  /** What reading or taking comes to in a space that exists: if a stored tuple fits the template everywhere, the
      first that does is the answer, and is removed from its place if taken; otherwise the thread is recorded
      and parked with its template. Nothing else changes. */
  ghost predicate Gets(s: State, ts: TsId, tid: Tid, pattern: Tuple, unblockable: bool, destructive: bool, t: State)
    requires ts in s.spaces
  {
    var p := s.spaces[ts];
    if exists x :: x in p.contain && FitsEverywhere(x, pattern) then
      exists i: nat :: IsFirstMatch(p.contain, pattern, i) &&
        t == s.(asked := s.asked + [tid], sent := s.sent + [Answer(tid, ts, destructive, ResultTuple(p.contain[i]))],
                spaces := if destructive then s.spaces[ts := p.(contain := p.contain[..i] + p.contain[i + 1..])] else s.spaces)
    else
      t == s.(asked := s.asked + [tid], blocked := s.blocked[tid := ts], waiting := s.waiting[tid := ts],
              spaces := s.spaces[ts := p.(parked := p.parked[tid := Waiter(pattern, unblockable, destructive)])])
  }

  lemma GetMeans(s: State, ts: TsId, tid: Tid, pattern: Tuple, unblockable: bool, destructive: bool)
    requires ts in s.spaces
    ensures Gets(s, ts, tid, pattern, unblockable, destructive, GetStep(s, ts, tid, pattern, unblockable, destructive))
  {
    hide Matches, FitsEverywhere, Matching, WithoutFirst;
    var contain := s.spaces[ts].contain;
    if Matching(contain, pattern) == [] {
      FirstMatchIs(contain, pattern);
    } else {
      var i := FirstMatch(contain, pattern);
      assert IsFirstMatch(contain, pattern, i);
    }
  }

  lemma FirstMatchIs(contain: seq<Tuple>, pattern: Tuple)
    ensures Matching(contain, pattern) == [] <==> forall x :: x in contain ==> !FitsEverywhere(x, pattern)
  {
    hide Matches, FitsEverywhere;
    MatchingSplits(contain, pattern);
    forall x | x in contain
      ensures FitsEverywhere(x, pattern) <==> Matches(x, pattern)
    {
      MatchesEverywhere(x, pattern);
    }
    if Matching(contain, pattern) != [] {
      assert Matching(contain, pattern)[0] in Matching(contain, pattern);
    }
  }

  lemma FirstMatch(contain: seq<Tuple>, pattern: Tuple) returns (i: nat)
    requires Matching(contain, pattern) != []
    ensures IsFirstMatch(contain, pattern, i) && contain[i] == Matching(contain, pattern)[0]
    ensures WithoutFirst(contain, contain[i]) == contain[..i] + contain[i + 1..]
    ensures exists x :: x in contain && FitsEverywhere(x, pattern)
  {
    hide Matches, FitsEverywhere, Selects;
    var idx, others := MatchingSelects(contain, pattern);
    i := SelectedFirst(contain, idx, Matching(contain, pattern));
    forall j | 0 <= j < i
      ensures !FitsEverywhere(contain[j], pattern) && contain[j] != contain[i]
    {
    }
    assert contain[i] in contain;
    WithoutFirstAt(contain, contain[i], i);
  }

  lemma SelectedFirst(all: seq<Tuple>, idx: seq<nat>, part: seq<Tuple>) returns (i: nat)
    requires Selects(all, idx, part) && part != []
    ensures i < |all| && i in idx && part[0] == all[i] && forall j: nat :: j < i ==> j !in idx
  {
    i := idx[0];
  }
}
