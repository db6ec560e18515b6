/** The tuplespace server itself (linda/src/linda/tuplespace.py, linda/src/linda/server.py). */
module TupleSpaceServer {
  import opened TupleMatching
  import opened Options
  import opened Pigeonhole
  import opened TupleSpaceSteps
  import opened TupleSpaceRuns
  import opened TupleSpaceDelivery

  // ---- Looking at the waiters one by one -----------------------------------------------------------

  lemma NoAnswers(ts: TsId, p: map<Tid, Waiter>)
    ensures Answers(ts, p, []) == []
  {
  }

  lemma {:induction false} AnswersAppend(ts: TsId, p: map<Tid, Waiter>, woken: seq<Tid>, tid: Tid)
    requires tid in p && forall x :: x in woken ==> x in p
    ensures forall x :: x in woken + [tid] ==> x in p
    ensures Answers(ts, p, woken + [tid]) == Answers(ts, p, woken) + [Answer(tid, ts, p[tid].destructive, ResultTuple(p[tid].pattern))]
  {
    if woken == [] {
      assert [tid][1..] == [];
    } else {
      assert (woken + [tid])[1..] == woken[1..] + [tid] && woken[0] in woken;
      assert forall x :: x in woken[1..] ==> x in woken;
      AnswersAppend(ts, p, woken[1..], tid);
    }
  }

  lemma NotYet(order: seq<Tid>, woken: seq<Tid>, k: nat)
    requires AllDistinct(order) && k < |order| && forall tid :: tid in woken ==> tid in order[..k]
    ensures order[k] !in woken
    ensures forall tid :: tid in woken + [order[k]] ==> tid in order[..k + 1]
  {
    assert order[..k + 1] == order[..k] + [order[k]];
  }

  lemma WokenStep(p: map<Tid, Waiter>, order: seq<Tid>, k: nat, tup: Tuple)
    requires k < |order| && forall tid :: tid in order[k..] ==> tid in p
    ensures order[k] in p && forall tid :: tid in order[k + 1..] ==> tid in p
    ensures var w, rest := p[order[k]], order[k + 1..];
      && Woken(p, order[k..], tup) == (if !Matches(w.pattern, tup) then Woken(p, rest, tup)
           else if w.destructive then [order[k]] else [order[k]] + Woken(p, rest, tup))
      && (Caught(p, order[k..], tup) <==> (w.destructive && Matches(w.pattern, tup)) || Caught(p, rest, tup))
  {
    var here := order[k..];
    assert here[0] == order[k] && here[1..] == order[k + 1..] && here[0] in here;
    CaughtFrom(p, here, tup);
    hide Caught, Matches;
  }

  /** The first k waiters of the order were looked at, and woken of them woken; none of these takes. */
  ghost predicate Looked(p: map<Tid, Waiter>, order: seq<Tid>, k: nat, tup: Tuple, woken: seq<Tid>) {
    && Lists(order, p) && k <= |order|
    && (forall tid :: tid in woken ==> tid in order[..k])
    && (forall tid :: tid in order[k..] ==> tid in p)
    && Woken(p, order, tup) == woken + Woken(p, order[k..], tup)
    && (Caught(p, order, tup) <==> Caught(p, order[k..], tup))
  }

  lemma LookedAtNone(p: map<Tid, Waiter>, order: seq<Tid>, tup: Tuple)
    requires Lists(order, p)
    ensures Looked(p, order, 0, tup, []) && WithoutKeys(p, []) == p && Answers("", p, []) == []
  {
    hide Caught, Woken;
    assert order[0..] == order;
  }

  lemma LookedAtAll(p: map<Tid, Waiter>, order: seq<Tid>, tup: Tuple, woken: seq<Tid>)
    requires Looked(p, order, |order|, tup, woken)
    ensures Woken(p, order, tup) == woken && !Caught(p, order, tup)
  {
    assert order[|order|..] == [];
    NobodyLeft(p, tup);
    assert woken + [] == woken;
    hide Caught, Woken;
  }

  lemma LookedOn(p: map<Tid, Waiter>, order: seq<Tid>, k: nat, tup: Tuple, woken: seq<Tid>, more: seq<Tid>)
    requires Looked(p, order, k, tup, woken) && k < |order| && forall tid :: tid in order[k + 1..] ==> tid in p
    requires forall tid :: tid in more ==> tid in order[..k + 1]
    requires Woken(p, order, tup) == more + Woken(p, order[k + 1..], tup)
    requires Caught(p, order, tup) <==> Caught(p, order[k + 1..], tup)
    ensures Looked(p, order, k + 1, tup, more)
  {
    hide Caught, Woken, Matches, Lists;
  }

  lemma LookedAtNext(p: map<Tid, Waiter>, order: seq<Tid>, k: nat, tup: Tuple, woken: seq<Tid>)
    requires Looked(p, order, k, tup, woken) && k < |order|
    ensures order[k] in p && order[k] !in woken && forall tid :: tid in woken ==> tid in p
    ensures var w, more := p[order[k]], woken + [order[k]];
      if !Matches(w.pattern, tup) then Looked(p, order, k + 1, tup, woken)
      else if w.destructive then Woken(p, order, tup) == more && Caught(p, order, tup)
      else Looked(p, order, k + 1, tup, more)
  {
    hide Caught, Woken, Matches, AllDistinct;
    NotYet(order, woken, k);
    WokenStep(p, order, k, tup);
    var w, more, rest := p[order[k]], woken + [order[k]], Woken(p, order[k + 1..], tup);
    assert order[..k + 1] == order[..k] + [order[k]];
    if !Matches(w.pattern, tup) {
      LookedOn(p, order, k, tup, woken, woken);
    } else if !w.destructive {
      assert woken + ([order[k]] + rest) == more + rest;
      LookedOn(p, order, k, tup, woken, more);
    }
  }

  lemma WithoutOneMore(p: map<Tid, Waiter>, woken: seq<Tid>, tid: Tid)
    requires tid in p && tid !in woken
    ensures tid in WithoutKeys(p, woken) && WithoutKeys(p, woken)[tid] == p[tid]
    ensures WithoutKeys(p, woken) - {tid} == WithoutKeys(p, woken + [tid])
  {
  }

  lemma NotRecorded(s: State, tid: Tid)
    requires Inv(s) && Idle(s, tid)
    ensures tid !in s.blocked
  {
    hide Conserved, ParkedWait, WaitingPend, ReturningWait, AnsweredOnce, NoneOverlooked;
  }

  lemma AddedAndRemoved(m: map<Tid, TsId>, tid: Tid, ts: TsId)
    requires tid !in m
    ensures m[tid := ts] - {tid} == m
  {
  }

  lemma GetDoes(s: State, ts: TsId, tid: Tid, pattern: Tuple, unblockable: bool, destructive: bool)
    ensures var t := GetStep(s, ts, tid, pattern, unblockable, destructive);
      t == s.(asked := s.asked + [tid], blocked := t.blocked, waiting := t.waiting, spaces := t.spaces, sent := t.sent,
              stranded := if ts in s.spaces then s.stranded else s.stranded + {tid})
    ensures ts !in s.spaces ==> var t := GetStep(s, ts, tid, pattern, unblockable, destructive);
      t.blocked == s.blocked[tid := ts] && t.waiting == s.waiting && t.spaces == s.spaces && t.sent == s.sent
    ensures ts in s.spaces ==>
      var t, p, found := GetStep(s, ts, tid, pattern, unblockable, destructive), s.spaces[ts], Matching(s.spaces[ts].contain, pattern);
      if found == [] then
        && t.blocked == s.blocked[tid := ts] && t.waiting == s.waiting[tid := ts] && t.sent == s.sent
        && t.spaces == s.spaces[ts := p.(parked := p.parked[tid := Waiter(pattern, unblockable, destructive)])]
      else
        && t.blocked == s.blocked && t.waiting == s.waiting && t.sent == s.sent + [Answer(tid, ts, destructive, ResultTuple(found[0]))]
        && t.spaces == if destructive then s.spaces[ts := p.(contain := WithoutFirst(p.contain, found[0]))] else s.spaces
  {
    hide Matching, WithoutFirst;
  }

  lemma StoredAreActual(s: State, ts: TsId, pattern: Tuple)
    requires Inv(s) && ts in s.spaces
    ensures forall t :: t in Matching(s.spaces[ts].contain, pattern) ==> IsActual(t)
  {
    MatchingSplits(s.spaces[ts].contain, pattern);
    hide Conserved, ParkedWait, WaitingPend, ReturningWait, AnsweredOnce, Recorded, Matches, IsActual, Matching;
  }

  // ---- The server ----------------------------------------------------------------------------------

  datatype Message = RdTuple | RdpTuple | InTuple | InpTuple

  class Server {
    var spaces: map<TsId, Space>
    var blockedThreads: map<Tid, TsId>
    var returning: seq<Answer>
    var pthreads: map<Pid, set<Tid>>
    var pthreadCount: map<Pid, nat>

    /** The history; its other components are not used. */
    ghost var past: State

    ghost function St(): State
      reads this
    {
      past.(spaces := spaces, blocked := blockedThreads, returning := returning, threads := pthreads, counts := pthreadCount)
    }

    constructor ()
      ensures St() == START && Inv(St())
    {
      spaces, blockedThreads, returning, pthreads, pthreadCount := map[], map[], [], map[], map[];
      past := START;
    }

    /** A new process, with an id of its own. */
    method RegisterProcess(pid: Pid)
      requires pid !in pthreadCount && Inv(St())
      modifies this`pthreads, this`pthreadCount
      ensures pthreads == old(pthreads)[pid := {}] && pthreadCount == old(pthreadCount)[pid := 0] && Inv(St())
    {
      hide Inv;
      ghost var s := St();
      pthreads, pthreadCount := pthreads[pid := {}], pthreadCount[pid := 0];
      RegisterKeepsInv(s, St());
    }

    /** A new thread of a process; this fails for a process never registered, and for one that has left, after
        its number was counted up. */
    method RegisterThread(pid: Pid) returns (tid: Option<Tid>)
      requires Inv(St())
      modifies this`pthreads, this`pthreadCount
      ensures pid !in old(pthreadCount) ==> St() == old(St())
      ensures pid in old(pthreadCount) ==> St() == RegisterStep(old(St()), pid)
      ensures tid == if pid in old(pthreadCount) && pid in old(pthreads) then Some(Tid(pid, old(pthreadCount)[pid] + 1)) else None
      ensures Inv(St())
    {
      hide Inv;
      if pid !in pthreadCount {
        return None;
      }
      ghost var s := St();
      RegisterThreadKeepsInv(s, pid);
      var n := pthreadCount[pid] + 1;
      pthreadCount := pthreadCount[pid := n];
      if pid !in pthreads {
        return None;
      }
      pthreads := pthreads[pid := pthreads[pid] + {Tid(pid, n)}];
      return Some(Tid(pid, n));
    }

    /** removeProcess of a thread: the process is removed with its last thread. It fails for a thread that is
        not registered. */
    method RemoveThread(tid: Tid) returns (ok: bool)
      requires Inv(St())
      modifies this`pthreads, this`blockedThreads, this`past
      ensures ok <==> tid.process in old(pthreads) && tid in old(pthreads)[tid.process]
      ensures St() == (if ok then ThreadLeaveStep(old(St()), tid) else old(St())) && Inv(St())
    {
      hide Inv, LeaveStep;
      var pid := tid.process;
      if pid !in pthreads || tid !in pthreads[pid] {
        return false;
      }
      ghost var s := St();
      ThreadLeaveKeepsInv(s, tid);
      pthreads := pthreads[pid := pthreads[pid] - {tid}];
      RegisterKeepsInv(s, St());
      if pthreads[pid] == {} {
        RemoveProcess(pid);
      }
      return true;
    }

    /** removeProcess of a process: its threads are no longer recorded as blocked. They stay in the blocked
        lists they are in. */
    method RemoveProcess(pid: Pid)
      requires pid in pthreads && Inv(St())
      modifies this`pthreads, this`blockedThreads, this`past
      ensures St() == LeaveStep(old(St()), pid) && Inv(St())
      ensures spaces == old(spaces) && forall tid :: tid in blockedThreads <==> tid in old(blockedThreads) && tid.process != pid
    {
      hide Inv, AllDistinct;
      ghost var s := St();
      LeaveKeepsInv(s, pid);
      var tids := Keys(blockedThreads);
      past := past.(forgotten := past.forgotten + ThreadsOf(blockedThreads, pid));
      var k := 0;
      while k < |tids|
        invariant 0 <= k <= |tids| && St() == s.(blocked := blockedThreads, forgotten := s.forgotten + ThreadsOf(s.blocked, pid))
        invariant forall tid :: tid in blockedThreads <==> tid in s.blocked && !(tid in tids[..k] && tid.process == pid)
        invariant forall tid :: tid in blockedThreads ==> blockedThreads[tid] == s.blocked[tid]
      {
        assert tids[..k + 1] == tids[..k] + [tids[k]];
        if tids[k].process == pid {
          blockedThreads := blockedThreads - {tids[k]};
        }
        k := k + 1;
      }
      assert tids[..k] == tids;
      assert blockedThreads == s.blocked - ThreadsOf(s.blocked, pid);
      pthreads := pthreads - {pid};
      assert St() == LeaveStep(s, pid);
    }

    /** A new tuplespace, in which nodes may have asked for tuples already. */
    method NewTupleSpace(ts: TsId, requests: seq<Request>)
      requires ts !in spaces && Inv(St())
      modifies this`spaces
      ensures spaces == old(spaces)[ts := Space([], map[], requests)] && Inv(St())
    {
      ghost var s := St();
      spaces := spaces[ts := Space([], map[], requests)];
      NewSpaceKeepsInv(s, ts, requests);
    }

    /** The keys of a dictionary, in some order. */
    method Keys<V>(m: map<Tid, V>) returns (order: seq<Tid>)
      ensures AllDistinct(order) && forall tid :: tid in order <==> tid in m
    {
      order := [];
      var rest := m.Keys;
      while rest != {}
        invariant AllDistinct(order) && rest <= m.Keys
        invariant forall tid :: tid in order <==> tid in m && tid !in rest
      {
        var tid :| tid in rest;
        order := order + [tid];
        rest := rest - {tid};
      }
    }

    /** Wakes the waiters that a tuple put into ts matches; true if one of them takes it. */
    method CheckBlocked(ts: TsId, tup: Tuple) returns (caught: bool, ghost order: seq<Tid>)
      requires ts in spaces
      modifies this`spaces, this`returning
      ensures var p := old(spaces)[ts];
        && Lists(order, p.parked) && caught == Caught(p.parked, order, tup)
        && (forall tid :: tid in Woken(p.parked, order, tup) ==> tid in p.parked)
        && spaces == old(spaces)[ts := p.(parked := WithoutKeys(p.parked, Woken(p.parked, order, tup)))]
        && returning == old(returning) + Answers(ts, p.parked, Woken(p.parked, order, tup))
    {
      hide Matches, Woken, Caught, Answers, Looked, WithoutKeys, AllDistinct;
      var blist := Keys(spaces[ts].parked);
      order := blist;
      ghost var p, before := spaces[ts], returning;
      var k := 0;
      ghost var woken: seq<Tid> := [];
      LookedAtNone(p.parked, order, tup);
      NoAnswers(ts, p.parked);
      while k < |blist|
        invariant 0 <= k <= |blist| && Looked(p.parked, order, k, tup, woken)
        invariant forall tid :: tid in woken ==> tid in p.parked
        invariant spaces == old(spaces)[ts := p.(parked := WithoutKeys(p.parked, woken))]
        invariant returning == before + Answers(ts, p.parked, woken)
      {
        var tid := blist[k];
        LookedAtNext(p.parked, order, k, tup, woken);
        WithoutOneMore(p.parked, woken, tid);
        var w := spaces[ts].parked[tid];
        if Matches(w.pattern, tup) {
          spaces := spaces[ts := spaces[ts].(parked := spaces[ts].parked - {tid})];
          returning := returning + [Answer(tid, ts, w.destructive, ResultTuple(w.pattern))];
          AnswersAppend(ts, p.parked, woken, tid);
          woken := woken + [tid];
          if w.destructive {
            return true, order;
          }
        }
        k := k + 1;
      }
      LookedAtAll(p.parked, order, tup, woken);
      return false, order;
    }

    /** The first node that asked for a tuple that tup matches. */
    method CheckRequests(requests: seq<Request>, tup: Tuple) returns (r: Option<Request>)
      ensures r == FirstRequest(requests, tup)
      ensures if r.Some? then exists i :: 0 <= i < |requests| && r == Some(requests[i]) && Matches(requests[i].pattern, tup)
                                          && forall j :: 0 <= j < i ==> !Matches(requests[j].pattern, tup)
              else forall j :: 0 <= j < |requests| ==> !Matches(requests[j].pattern, tup)
    {
      hide Matches;
      var k := 0;
      while k < |requests|
        invariant 0 <= k <= |requests| && FirstRequest(requests, tup) == FirstRequest(requests[k..], tup)
        invariant forall j :: 0 <= j < k ==> !Matches(requests[j].pattern, tup)
      {
        assert requests[k..][1..] == requests[k + 1..];
        if Matches(requests[k].pattern, tup) {
          return Some(requests[k]);
        }
        k := k + 1;
      }
      return None;
    }

    /** _out, for whatever order the dictionary gives its waiters in. */
    method Out(ts: TsId, tup: Tuple) returns (ghost order: seq<Tid>)
      requires ts in spaces && IsActual(tup) && Inv(St())
      modifies this`spaces, this`returning, this`past
      ensures Lists(order, old(spaces)[ts].parked) && St() == OutStep(old(St()), ts, tup, order)
      ensures Inv(St()) && spaces.Keys == old(spaces.Keys)
    {
      hide Inv, Woken, Caught, FirstRequest, WithoutKeys, Answers, IsActual, AllDistinct;
      ghost var s := St();
      past := past.(outs := past.outs + [(ts, tup)]);
      var caught;
      caught, order := CheckBlocked(ts, tup);
      OutKeepsInv(s, ts, tup, order);
      if caught {
        return;
      }
      var r := CheckRequests(spaces[ts].requests, tup);
      if r.Some? {
        past := past.(forwarded := past.forwarded + [Forward(ts, r.value.pattern, r.value.node)]);
      } else {
        spaces := spaces[ts := spaces[ts].(contain := spaces[ts].contain + [tup])];
      }
    }

    /** _rd and its handler. The handler compares the message with inp_tuple, which is not one of its own,
        so a thread that reads is never parked as one that may be unblocked. It fails if the space is missing,
        when the thread is recorded as blocked already. */
    method ReadTuple(message: Message, ts: TsId, tid: Tid, template: Tuple) returns (ok: bool)
      requires message.RdTuple? || message.RdpTuple?
      requires Idle(St(), tid) && Inv(St())
      modifies this`spaces, this`blockedThreads, this`past
      ensures ok <==> ts in old(spaces)
      ensures St() == GetStep(old(St()), ts, tid, template, false, false) && Inv(St())
    {
      hide Inv, Idle, Matching, WithoutFirst, GetStep;
      ghost var s := St();
      GetKeepsInv(s, ts, tid, template, false, false);
      GetDoes(s, ts, tid, template, false, false);
      var unblockable := message == InpTuple;
      NotRecorded(s, tid);
      past := past.(asked := past.asked + [tid]);
      blockedThreads := blockedThreads[tid := ts];
      if ts !in spaces {
        past := past.(stranded := past.stranded + {tid});
        return false;
      }
      var found, tup := MatchOneTuple(spaces[ts].contain, template);
      if found {
        blockedThreads := blockedThreads - {tid};
        past := past.(sent := past.sent + [Answer(tid, ts, false, ResultTuple(tup))]);
        AddedAndRemoved(s.blocked, tid, ts);
      } else {
        past := past.(waiting := past.waiting[tid := ts]);
        spaces := spaces[ts := spaces[ts].(parked := spaces[ts].parked[tid := Waiter(template, unblockable, false)])];
      }
      return true;
    }

    /** _in and its handler. */
    method TakeTuple(message: Message, ts: TsId, tid: Tid, template: Tuple) returns (ok: bool)
      requires message.InTuple? || message.InpTuple?
      requires Idle(St(), tid) && Inv(St())
      modifies this`spaces, this`blockedThreads, this`past
      ensures ok <==> ts in old(spaces)
      ensures St() == GetStep(old(St()), ts, tid, template, message.InpTuple?, true) && Inv(St())
    {
      hide Inv, Idle, Matching, WithoutFirst, IsActual, GetStep;
      ghost var s := St();
      GetKeepsInv(s, ts, tid, template, message.InpTuple?, true);
      GetDoes(s, ts, tid, template, message.InpTuple?, true);
      var unblockable := message == InpTuple;
      NotRecorded(s, tid);
      past := past.(asked := past.asked + [tid]);
      blockedThreads := blockedThreads[tid := ts];
      if ts !in spaces {
        past := past.(stranded := past.stranded + {tid});
        return false;
      }
      StoredAreActual(s, ts, template);
      var found, tup := MatchOneTuple(spaces[ts].contain, template);
      if found {
        var rest := Delete(spaces[ts].contain, tup);
        spaces := spaces[ts := spaces[ts].(contain := rest)];
        blockedThreads := blockedThreads - {tid};
        past := past.(sent := past.sent + [Answer(tid, ts, true, ResultTuple(tup))]);
        AddedAndRemoved(s.blocked, tid, ts);
      } else {
        past := past.(waiting := past.waiting[tid := ts]);
        spaces := spaces[ts := spaces[ts].(parked := spaces[ts].parked[tid := Waiter(template, unblockable, true)])];
      }
      return true;
    }

    /** do_return_tuple for the i-th woken waiter. It fails exactly if the process of the waiter has left while
        it waited. */
    method ReturnTuple(i: nat) returns (ok: bool)
      requires i < |returning| && Inv(St())
      modifies this`returning, this`past, this`blockedThreads
      ensures St() == ReturnStep(old(St()), i) && Inv(St())
      ensures ok <==> old(returning)[i].tid !in old(past.forgotten)
    {
      hide Inv;
      ghost var s := St();
      ReturnKeepsInv(s, i);
      ReturnFinds(s, i);
      var a := returning[i];
      returning := returning[..i] + returning[i + 1..];
      past := past.(waiting := past.waiting - {a.tid});
      if a.tid !in blockedThreads {
        past := past.(lost := past.lost + [a]);
        return false;
      }
      blockedThreads := blockedThreads - {a.tid};
      past := past.(sent := past.sent + [a]);
      return true;
    }

    /** unblockRandom: unblocks the first waiter that may be unblocked, if there is one. The assertion that it
        is recorded as blocked fails exactly if its process has left while it waited. */
    method UnblockRandom(ts: TsId) returns (p: Option<Tid>, ok: bool)
      requires ts in spaces && Inv(St())
      modifies this`spaces, this`past, this`blockedThreads
      ensures Inv(St())
      ensures p.Some? ==> p.value in old(spaces)[ts].parked && old(spaces)[ts].parked[p.value].unblockable
      ensures p.Some? ==> St() == UnblockStep(old(St()), ts, p.value) && (ok <==> p.value !in old(past.forgotten))
      ensures p.None? ==> St() == old(St()) && forall tid :: tid in spaces[ts].parked ==> !spaces[ts].parked[tid].unblockable
    {
      hide Inv, AllDistinct;
      ghost var s := St();
      var parked := spaces[ts].parked;
      var l := Keys(parked);
      var k := 0;
      while k < |l| && !parked[l[k]].unblockable
        invariant 0 <= k <= |l| && forall j :: 0 <= j < k ==> !parked[l[j]].unblockable
      {
        k := k + 1;
      }
      if k == |l| {
        return None, true;
      }
      var tid := l[k];
      assert ParkedIn(s, ts, tid);
      UnblockKeepsInv(s, ts, tid);
      UnblockFinds(s, ts, tid);
      spaces := spaces[ts := spaces[ts].(parked := parked - {tid})];
      ok := UnblockThread(tid, Answer(tid, ts, parked[tid].destructive, Unblock));
      assert St() == UnblockStep(s, ts, tid);
      return Some(tid), ok;
    }

    method UnblockThread(tid: Tid, ghost a: Answer) returns (ok: bool)
      requires a.tid == tid
      modifies this`blockedThreads, this`past
      ensures ok <==> tid in old(blockedThreads)
      ensures St() == Replied(old(St()), a)
    {
      past := past.(waiting := past.waiting - {tid});
      if tid !in blockedThreads {
        past := past.(lost := past.lost + [a]);
        return false;
      }
      past := past.(sent := past.sent + [a]);
      blockedThreads := blockedThreads - {tid};
      return true;
    }

    /** collect of a tuplespace: the tuples that match are found first, and then deleted one by one, each
        time the first that equals it. */
    method CollectFrom(ts: TsId, pattern: Tuple) returns (tups: seq<Tuple>)
      requires ts in spaces && Inv(St())
      modifies this`spaces, this`past
      ensures tups == Matching(old(spaces)[ts].contain, pattern)
      ensures St() == CollectStep(old(St()), ts, pattern) && Inv(St())
    {
      hide Inv, Matching, NotMatching, WithoutFirst, IsActual;
      ghost var s := St();
      CollectKeepsInv(s, ts, pattern);
      StoredAreActual(s, ts, pattern);
      ghost var idx;
      tups, idx := MatchTuples(spaces[ts].contain, pattern);
      DeletingMatches(spaces[ts].contain, pattern);
      var rest := spaces[ts].contain;
      var k := 0;
      assert tups[0..] == tups;
      while k < |tups|
        invariant 0 <= k <= |tups| && St() == s && WithoutAll(rest, tups[k..]) == NotMatching(s.spaces[ts].contain, pattern)
      {
        assert tups[k..][1..] == tups[k + 1..];
        rest := Delete(rest, tups[k]);
        k := k + 1;
      }
      assert tups[k..] == [];
      spaces := spaces[ts := spaces[ts].(contain := rest)];
      past := past.(collected := past.collected + Labelled(ts, tups));
      assert St() == CollectStep(s, ts, pattern);
    }

    /** garbage: unless the space is referred to it is deleted, with its tuples and with the list of the threads
        parked in it. The universal tuplespace stays. */
    method Garbage(ts: TsId, referred: bool)
      requires ts in spaces && Inv(St())
      modifies this`spaces, this`past
      ensures St() == (if ts == "UTS" || referred then old(St()) else DropStep(old(St()), ts)) && Inv(St())
    {
      hide Inv;
      ghost var s := St();
      if ts == "UTS" || referred {
        return;
      }
      DropKeepsInv(s, ts);
      ghost var parked := spaces[ts].parked.Keys;
      past := past.(dropped := past.dropped + Labelled(ts, spaces[ts].contain), waiting := past.waiting - parked,
                    stranded := past.stranded + parked);
      spaces := spaces - {ts};
    }

    /** Puts tuples one by one into a space, where they may wake waiters. */
    method OutAll(ts: TsId, tups: seq<Tuple>)
      requires ts in spaces && Inv(St()) && forall t :: t in tups ==> IsActual(t)
      modifies this`spaces, this`returning, this`past
      ensures Inv(St()) && Delivered(old(St()), ts, tups, St())
    {
      hide Inv, IsActual, OutStep, Delivered, AllDistinct;
      ghost var s := St();
      var k := 0;
      DeliversNothing(s, ts);
      assert tups[..0] == [];
      while k < |tups|
        invariant 0 <= k <= |tups| && Inv(St()) && Delivered(s, ts, tups[..k], St())
      {
        ghost var b := St();
        DeliveredThere(s, ts, tups[..k], b);
        ghost var order := Out(ts, tups[k]);
        OutDelivers(s, ts, tups[..k], b, tups[k], order);
        assert tups[..k + 1] == tups[..k] + [tups[k]];
        k := k + 1;
      }
      assert tups[..k] == tups;
    }

    /** The collect handler. A space that is missing gives nothing. What is collected is put into the
        destination, tuple by tuple; a destination that is missing is created first, with the requests of other
        nodes for it, and looked at for garbage afterwards: unless somebody refers to it by then it is deleted
        again, with all of the tuples that no node asked for. */
    method Collect(ts: TsId, dest: TsId, pattern: Tuple, requests: seq<Request>, referred: bool) returns (total: nat)
      requires Inv(St())
      modifies this`spaces, this`returning, this`past
      ensures Inv(St()) && Collects(old(St()), ts, dest, pattern, requests, referred, total, St())
    {
      hide Inv, CollectStep, DropStep, Matching, IsActual, Delivered;
      if ts !in spaces {
        return 0;
      }
      ghost var s := St();
      var created := dest !in spaces;
      if created {
        NewTupleSpace(dest, requests);
      }
      ghost var s1 := St();
      StoredAreActual(s1, ts, pattern);
      var tups := CollectFrom(ts, pattern);
      CollectLeaves(s, s1, ts, dest, pattern, requests);
      OutAll(dest, tups);
      ghost var u := St();
      DeliveredThere(Collected(s, ts, dest, pattern, requests), dest, tups, u);
      if created {
        Garbage(dest, referred);
      }
      total := |tups|;
    }
  }

  /** s after the destination was created, if it was missing, and the tuples that match were taken out of ts. */
  ghost function Collected(s: State, ts: TsId, dest: TsId, pattern: Tuple, requests: seq<Request>): State
    requires ts in s.spaces
  {
    var spaces := if dest in s.spaces then s.spaces else s.spaces[dest := Space([], map[], requests)];
    var p := s.spaces[ts];
    s.(spaces := spaces[ts := p.(contain := NotMatching(p.contain, pattern))],
       collected := s.collected + Labelled(ts, Matching(p.contain, pattern)))
  }

  /** What collect comes to, from s to t. */
  ghost predicate Collects(s: State, ts: TsId, dest: TsId, pattern: Tuple, requests: seq<Request>, referred: bool, total: nat, t: State) {
    if ts !in s.spaces then total == 0 && t == s
    else
      var found := Matching(s.spaces[ts].contain, pattern);
      && total == |found|
      && exists u :: Delivered(Collected(s, ts, dest, pattern, requests), dest, found, u) && dest in u.spaces &&
           t == if dest in s.spaces || dest == "UTS" || referred then u else DropStep(u, dest)
  }

  lemma CollectLeaves(s: State, s1: State, ts: TsId, dest: TsId, pattern: Tuple, requests: seq<Request>)
    requires ts in s.spaces && s1 == if dest in s.spaces then s else s.(spaces := s.spaces[dest := Space([], map[], requests)])
    ensures CollectStep(s1, ts, pattern) == Collected(s, ts, dest, pattern, requests)
    ensures Matching(s1.spaces[ts].contain, pattern) == Matching(s.spaces[ts].contain, pattern)
  {
    hide Matching, NotMatching;
  }

  /** Where the collected tuples go, of each value: into a destination that exists as many are taken as there are
      takers of exactly it, and the others are sent to the first node that asked for exactly it, or else stored;
      with a destination that was created those that a node asked for are sent to it, and the others stored, or
      dropped if it is deleted again. */
  lemma CollectedGo(s: State, ts: TsId, dest: TsId, pattern: Tuple, requests: seq<Request>, referred: bool, total: nat, t: State, x: Tuple)
    requires Collects(s, ts, dest, pattern, requests, referred, total, t) && ts in s.spaces
    ensures var found := multiset(Matching(s.spaces[ts].contain, pattern))[x];
      var c := Collected(s, ts, dest, pattern, requests).spaces[dest];
      var takers := |Takers(c.parked, x)|;
      var left := if found < takers then 0 else found - takers;
      && multiset(SentOn(t.forwarded))[(dest, x)] == multiset(SentOn(s.forwarded))[(dest, x)] + (if AskedFor(c.requests, x) then left else 0)
      && (dest in t.spaces ==>
           && multiset(t.spaces[dest].contain)[x] == multiset(c.contain)[x] + (if AskedFor(c.requests, x) then 0 else left)
           && |Takers(t.spaces[dest].parked, x)| == TakersLeft(takers, found))
      && (dest !in t.spaces ==> takers == 0 && multiset(t.dropped)[(dest, x)] == multiset(s.dropped)[(dest, x)] + if AskedFor(c.requests, x) then 0 else left)
  {
    hide Matching, NotMatching, Collected, Delivered, Takers, AskedFor;
    var found, c := Matching(s.spaces[ts].contain, pattern), Collected(s, ts, dest, pattern, requests);
    var u :| Delivered(c, dest, found, u) && dest in u.spaces && t == if dest in s.spaces || dest == "UTS" || referred then u else DropStep(u, dest);
    CollectedKeeps(s, ts, dest, pattern, requests);
    DeliveredOf(c, dest, found, u, x);
    if dest !in t.spaces {
      NobodyTakes(c.spaces[dest].parked, x);
      LabelledCounts(dest, u.spaces[dest].contain, dest, x);
      assert multiset(t.dropped) == multiset(u.dropped) + multiset(Labelled(dest, u.spaces[dest].contain));
    }
  }

  lemma CollectedKeeps(s: State, ts: TsId, dest: TsId, pattern: Tuple, requests: seq<Request>)
    requires ts in s.spaces
    ensures var c := Collected(s, ts, dest, pattern, requests);
      && c.forwarded == s.forwarded && c.dropped == s.dropped && dest in c.spaces
      && (dest !in s.spaces ==> c.spaces[dest] == Space([], map[], requests))
  {
    hide Matching, NotMatching;
  }

  lemma DeliveredOf(s: State, ts: TsId, tups: seq<Tuple>, t: State, x: Tuple)
    requires Delivered(s, ts, tups, t)
    ensures ts in s.spaces && ts in t.spaces && t.dropped == s.dropped
    ensures var p, q, n := s.spaces[ts], t.spaces[ts], multiset(tups)[x];
      var left := if n < |Takers(p.parked, x)| then 0 else n - |Takers(p.parked, x)|;
      && |Takers(q.parked, x)| == TakersLeft(|Takers(p.parked, x)|, n)
      && multiset(q.contain)[x] == multiset(p.contain)[x] + (if AskedFor(p.requests, x) then 0 else left)
      && multiset(SentOn(t.forwarded))[(ts, x)] == multiset(SentOn(s.forwarded))[(ts, x)] + (if AskedFor(p.requests, x) then left else 0)
  {
    hide NotAsked, NotTaken, SentToAskers, Takers, AskedFor, WokenAnswered;
    var p := s.spaces[ts];
    var rest, fs := NotTaken(p.parked, tups), t.forwarded[|s.forwarded|..];
    HowManyNotTaken(p.parked, tups, x);
    HowManyNotAsked(p.requests, rest, x);
    HowManySent(ts, p.requests, rest, fs, x);
    assert t.forwarded == s.forwarded + fs && SentOn(t.forwarded) == SentOn(s.forwarded) + SentOn(fs);
  }
}
