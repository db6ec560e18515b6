/** Replies, unblocking, collecting, leaving, and whole runs of the tuplespace server. */
module TupleSpaceRuns {
  import opened TupleMatching
  import opened Pigeonhole
  import opened TupleSpaceSteps

  // ---- Replies -------------------------------------------------------------------------------------

  /** The thread a reply is on its way to waits for it, is parked nowhere and gets no other. Looking it up
      succeeds, and the reply is sent, exactly if its process has not left while it waited; otherwise the
      reply is lost. */
  lemma ReturnFinds(s: State, i: nat)
    requires Inv(s) && i < |s.returning|
    ensures var tid := s.returning[i].tid;
      && tid in s.waiting && AnsweredTo(s.returning, tid) == 1 && (forall ts :: !ParkedIn(s, ts, tid))
      && (tid in s.blocked <==> tid !in s.forgotten)
    ensures var a, t := s.returning[i], ReturnStep(s, i);
      if a.tid in s.forgotten then t.sent == s.sent && t.lost == s.lost + [a] else t.sent == s.sent + [a] && t.lost == s.lost
  {
    hide Conserved, AnsweredOnce, NoneOverlooked, AnsweredTo, ParkedIn;
    AnsweredAt(s.returning, i);
  }

  lemma {:induction false} AnsweredAt(answers: seq<Answer>, i: nat)
    requires i < |answers|
    ensures AnsweredTo(answers, answers[i].tid) > 0
  {
    if i > 0 {
      AnsweredAt(answers[1..], i - 1);
    }
  }

  lemma ReturnKeepsInv(s: State, i: nat)
    requires Inv(s) && i < |s.returning|
    ensures Inv(ReturnStep(s, i))
  {
    hide Conserved, ParkedWait, WaitingPend, ReturningWait, NoneOverlooked, AnsweredTo, AnsweredOnce, Recorded, ParkedIn;
    var t := ReturnStep(s, i);
    ReturnFinds(s, i);
    ReplyRecords(s, s.returning[i], t);
    ReplyAnswers(s, s.returning[i], t);
    ReturnConserves(s, i, t);
    ReturnBlocks(s, i, t);
  }

  /** t agrees with s after the reply a in all that the records of threads and replies are about. */
  ghost predicate Replies(s: State, a: Answer, t: State) {
    && t.waiting == s.waiting - {a.tid} && t.stranded == s.stranded && t.forgotten == s.forgotten && t.asked == s.asked
    && if a.tid in s.blocked then t.blocked == s.blocked - {a.tid} && t.sent == s.sent + [a] && t.lost == s.lost
       else t.blocked == s.blocked && t.sent == s.sent && t.lost == s.lost + [a]
  }

  lemma ReplyRecords(s: State, a: Answer, t: State)
    requires Recorded(s) && Replies(s, a, t) && a.tid in s.waiting
    ensures Recorded(t)
  {
    hide AnsweredTo;
    forall x
      ensures AnsweredTo(t.lost, x) > 0 ==> x in t.forgotten
    {
      ReplyLoses(s, a, t, x);
    }
  }

  lemma ReplyLoses(s: State, a: Answer, t: State, tid: Tid)
    requires Recorded(s) && Replies(s, a, t) && a.tid in s.waiting
    ensures AnsweredTo(t.lost, tid) > 0 ==> tid in t.forgotten
  {
    AnsweredToJoin(s.lost, [a], tid);
    assert AnsweredTo([a], tid) == if a.tid == tid then 1 else 0;
    hide AnsweredTo;
  }

  lemma ReplyAnswers(s: State, a: Answer, t: State)
    requires AnsweredOnce(s) && Replies(s, a, t) && a.tid in s.waiting
    ensures AnsweredOnce(t)
  {
    hide AnsweredTo;
    SentAlso(s.lost, a);
    SentAlso(s.sent, a);
  }

  lemma ReplyTakes(s: State, a: Answer, t: State, ts: TsId, tup: Tuple)
    requires Replies(s, a, t)
    ensures TakenBy(t.sent, ts, tup) + TakenBy(t.lost, ts, tup) == TakenBy(s.sent, ts, tup) + TakenBy(s.lost, ts, tup) + TakenBy([a], ts, tup)
  {
    TakenByJoin(s.sent, [a], ts, tup);
    TakenByJoin(s.lost, [a], ts, tup);
    hide TakenBy;
  }

  lemma ReturningParts(s: State, i: nat)
    requires i < |s.returning|
    ensures forall x :: AnsweredTo(s.returning, x) == AnsweredTo(s.returning[..i] + s.returning[i + 1..], x) + if x == s.returning[i].tid then 1 else 0
    ensures forall ts, tup :: TakenBy(s.returning, ts, tup) == TakenBy(s.returning[..i] + s.returning[i + 1..], ts, tup) + TakenBy([s.returning[i]], ts, tup)
  {
    var l, m, r := s.returning[..i], [s.returning[i]], s.returning[i + 1..];
    assert s.returning == l + m + r;
    forall x
      ensures AnsweredTo(s.returning, x) == AnsweredTo(l + r, x) + if x == s.returning[i].tid then 1 else 0
    {
      AnsweredToJoin(l + m, r, x);
      AnsweredToJoin(l, m, x);
      AnsweredToJoin(l, r, x);
    }
    forall ts, tup
      ensures TakenBy(s.returning, ts, tup) == TakenBy(l + r, ts, tup) + TakenBy(m, ts, tup)
    {
      TakenByJoin(l + m, r, ts, tup);
      TakenByJoin(l, m, ts, tup);
      TakenByJoin(l, r, ts, tup);
    }
  }

  lemma ReturnConserves(s: State, i: nat, t: State)
    requires Conserved(s) && i < |s.returning| && t == ReturnStep(s, i)
    ensures Conserved(t)
  {
    hide TakenBy;
    ReturningParts(s, i);
    forall ts, tup
      ensures TakenBy(t.sent, ts, tup) + TakenBy(t.lost, ts, tup) == TakenBy(s.sent, ts, tup) + TakenBy(s.lost, ts, tup) + TakenBy([s.returning[i]], ts, tup)
    {
      ReplyTakes(s, s.returning[i], t, ts, tup);
    }
  }

  /** A thread stops waiting together with its entry in a blocked list or its reply. */
  lemma Released(s: State, tid: Tid, t: State)
    requires ParkedWait(s) && WaitingPend(s) && ReturningWait(s)
    requires t.waiting == s.waiting - {tid}
    requires forall ts, x :: ParkedIn(t, ts, x) <==> ParkedIn(s, ts, x) && x != tid
    requires forall x :: x != tid ==> AnsweredTo(t.returning, x) == AnsweredTo(s.returning, x)
    requires AnsweredTo(t.returning, tid) == 0
    ensures ParkedWait(t) && WaitingPend(t) && ReturningWait(t)
  {
    hide AnsweredTo, ParkedIn;
  }

  lemma ReturnBlocks(s: State, i: nat, t: State)
    requires ParkedWait(s) && WaitingPend(s) && ReturningWait(s) && i < |s.returning| && t == ReturnStep(s, i)
    requires AnsweredTo(s.returning, s.returning[i].tid) == 1 && forall ts :: !ParkedIn(s, ts, s.returning[i].tid)
    ensures ParkedWait(t) && WaitingPend(t) && ReturningWait(t)
  {
    hide AnsweredTo, ParkedWait, WaitingPend, ReturningWait;
    ReturningParts(s, i);
    var tid := s.returning[i].tid;
    assert forall x :: AnsweredTo(s.returning, x) == AnsweredTo(t.returning, x) + if x == tid then 1 else 0;
    assert forall ts, x :: ParkedIn(t, ts, x) <==> ParkedIn(s, ts, x);
    Released(s, tid, t);
  }

  /** A thread taken from a blocked list waits on that space only, with no reply under way. It is recorded as
      blocked, as the server asserts, exactly if its process has not left while it waited; otherwise nothing
      is sent. */
  lemma UnblockFinds(s: State, ts: TsId, tid: Tid)
    requires Inv(s) && ParkedIn(s, ts, tid)
    ensures tid in s.waiting && s.waiting[tid] == ts && AnsweredTo(s.returning, tid) == 0
    ensures forall x :: ParkedIn(s, x, tid) ==> x == ts
    ensures tid in s.blocked <==> tid !in s.forgotten
    ensures var a, t := Answer(tid, ts, s.spaces[ts].parked[tid].destructive, Unblock), UnblockStep(s, ts, tid);
      if tid in s.forgotten then t.sent == s.sent && t.lost == s.lost + [a] else t.sent == s.sent + [a] && t.lost == s.lost
  {
    hide Conserved, AnsweredOnce, NoneOverlooked, AnsweredTo;
  }

  lemma UnblockKeepsInv(s: State, ts: TsId, tid: Tid)
    requires Inv(s) && ParkedIn(s, ts, tid)
    ensures Inv(UnblockStep(s, ts, tid))
  {
    hide Conserved, ParkedWait, WaitingPend, ReturningWait, NoneOverlooked, AnsweredTo, AnsweredOnce, Recorded, Matches, TakenBy;
    var p, t := s.spaces[ts], UnblockStep(s, ts, tid);
    var a := Answer(tid, ts, p.parked[tid].destructive, Unblock);
    UnblockFinds(s, ts, tid);
    ReplyRecords(s, a, t);
    ReplyAnswers(s, a, t);
    UnblockConserves(s, ts, tid, t);
    UnblockBlocks(s, ts, tid, t);
    FewerWaiters(p, tid);
  }

  lemma FewerWaiters(p: Space, tid: Tid)
    requires NoneOverlooked(p)
    ensures NoneOverlooked(p.(parked := p.parked - {tid}))
  {
    hide Matches, IsActual;
  }

  lemma UnblockTakesNone(s: State, ts: TsId, tid: Tid, ts': TsId, tup: Tuple)
    requires ParkedIn(s, ts, tid)
    ensures var t := UnblockStep(s, ts, tid);
      TakenBy(t.sent, ts', tup) + TakenBy(t.lost, ts', tup) == TakenBy(s.sent, ts', tup) + TakenBy(s.lost, ts', tup)
  {
    var a := Answer(tid, ts, s.spaces[ts].parked[tid].destructive, Unblock);
    assert TakenBy([a], ts', tup) == 0;
    hide TakenBy;
    ReplyTakes(s, a, UnblockStep(s, ts, tid), ts', tup);
  }

  lemma UnblockConserves(s: State, ts: TsId, tid: Tid, t: State)
    requires Conserved(s) && ParkedIn(s, ts, tid) && t == UnblockStep(s, ts, tid)
    ensures Conserved(t)
  {
    hide TakenBy, Stored;
    forall ts', tup
      ensures TakenBy(t.sent, ts', tup) + TakenBy(t.lost, ts', tup) == TakenBy(s.sent, ts', tup) + TakenBy(s.lost, ts', tup)
      ensures Stored(t, ts') == Stored(s, ts')
    {
      UnblockTakesNone(s, ts, tid, ts', tup);
      SameStored(s, t, ts');
    }
    hide UnblockStep;
  }

  lemma SameStored(s: State, t: State, ts: TsId)
    requires t.spaces.Keys == s.spaces.Keys && (ts in s.spaces ==> t.spaces[ts].contain == s.spaces[ts].contain)
    ensures Stored(t, ts) == Stored(s, ts)
  {
  }

  lemma UnblockBlocks(s: State, ts: TsId, tid: Tid, t: State)
    requires ParkedWait(s) && WaitingPend(s) && ReturningWait(s) && ParkedIn(s, ts, tid) && t == UnblockStep(s, ts, tid)
    requires AnsweredTo(s.returning, tid) == 0 && forall x :: ParkedIn(s, x, tid) ==> x == ts
    ensures ParkedWait(t) && WaitingPend(t) && ReturningWait(t)
  {
    hide AnsweredTo, ParkedWait, WaitingPend, ReturningWait;
    assert forall x, y :: ParkedIn(t, x, y) <==> ParkedIn(s, x, y) && !(x == ts && y == tid);
    Released(s, tid, t);
  }

  // ---- collect -------------------------------------------------------------------------------------

  lemma LabelledCounts(ts: TsId, tups: seq<Tuple>, ts': TsId, t: Tuple)
    ensures multiset(Labelled(ts, tups))[(ts', t)] == if ts' == ts then multiset(tups)[t] else 0
  {
    if tups != [] {
      var init, last := tups[..|tups| - 1], tups[|tups| - 1];
      assert tups == init + [last];
      assert Labelled(ts, tups) == Labelled(ts, init) + [(ts, last)];
      LabelledCounts(ts, init, ts', t);
    } else {
      assert Labelled(ts, tups) == [];
    }
  }

  lemma CollectKeepsInv(s: State, ts: TsId, pattern: Tuple)
    requires Inv(s) && ts in s.spaces
    ensures Inv(CollectStep(s, ts, pattern))
  {
    hide Conserved, ParkedWait, WaitingPend, ReturningWait, NoneOverlooked, AnsweredTo, Matches, TakenBy, Matching, NotMatching;
    var p, t := s.spaces[ts], CollectStep(s, ts, pattern);
    MatchingSplits(p.contain, pattern);
    CollectConserves(s, ts, pattern, t);
    FewerOverlooked(p, NotMatching(p.contain, pattern), []);
    SameBlocked(s, t);
  }

  lemma CollectConserves(s: State, ts: TsId, pattern: Tuple, t: State)
    requires Conserved(s) && ts in s.spaces && t == CollectStep(s, ts, pattern)
    ensures Conserved(t)
  {
    hide TakenBy, Matching, NotMatching, Matches;
    var p := s.spaces[ts];
    var found := Matching(p.contain, pattern);
    MatchingSplits(p.contain, pattern);
    forall ts', tup
      ensures multiset(t.collected)[(ts', tup)] == multiset(s.collected)[(ts', tup)] + if ts' == ts then multiset(found)[tup] else 0
    {
      LabelledCounts(ts, found, ts', tup);
      assert multiset(t.collected) == multiset(s.collected) + multiset(Labelled(ts, found));
    }
  }

  // ---- New and deleted spaces ----------------------------------------------------------------------

  lemma NewSpaceKeepsInv(s: State, ts: TsId, requests: seq<Request>)
    requires Inv(s) && ts !in s.spaces
    ensures Inv(s.(spaces := s.spaces[ts := Space([], map[], requests)]))
  {
    hide TakenBy, AnsweredTo, Conserved, ParkedWait, WaitingPend, ReturningWait;
    var t := s.(spaces := s.spaces[ts := Space([], map[], requests)]);
    NewSpaceConserves(s, t, ts);
    SameParked(s, t);
  }

  lemma NewSpaceConserves(s: State, t: State, ts: TsId)
    requires Conserved(s) && ts !in s.spaces && t == s.(spaces := t.spaces)
    requires t.spaces.Keys == s.spaces.Keys + {ts} && t.spaces[ts].contain == [] && forall x :: x in s.spaces ==> t.spaces[x] == s.spaces[x]
    ensures Conserved(t)
  {
    hide TakenBy;
    assert forall x :: Stored(t, x) == Stored(s, x);
    hide Stored;
  }

  lemma SameParked(s: State, t: State)
    requires ParkedWait(s) && WaitingPend(s) && ReturningWait(s) && t.waiting == s.waiting && t.returning == s.returning
    requires forall x, tid :: ParkedIn(t, x, tid) <==> ParkedIn(s, x, tid)
    ensures ParkedWait(t) && WaitingPend(t) && ReturningWait(t)
  {
    hide AnsweredTo, ParkedIn;
  }

  /** A space is deleted with its list of parked threads: these stay recorded, but wait no more. */
  lemma DropKeepsInv(s: State, ts: TsId)
    requires Inv(s) && ts in s.spaces
    ensures Inv(DropStep(s, ts))
  {
    hide TakenBy, AnsweredTo, Conserved, ParkedWait, WaitingPend, ReturningWait, NoneOverlooked, AnsweredOnce, Recorded;
    var t := DropStep(s, ts);
    DropConserves(s, ts, t);
    DropBlocks(s, ts, t);
    DropRecords(s, ts, t);
    DropAnswers(s, ts, t);
  }

  lemma DropBlocks(s: State, ts: TsId, t: State)
    requires ParkedWait(s) && WaitingPend(s) && ReturningWait(s) && ts in s.spaces && t == DropStep(s, ts)
    ensures ParkedWait(t) && WaitingPend(t) && ReturningWait(t)
  {
    hide AnsweredTo;
    assert forall x, y :: ParkedIn(t, x, y) <==> ParkedIn(s, x, y) && x != ts;
    assert forall y :: y in t.waiting <==> y in s.waiting && !ParkedIn(s, ts, y);
    hide DropStep, ParkedIn;
  }

  lemma DropRecords(s: State, ts: TsId, t: State)
    requires Recorded(s) && ParkedWait(s) && ts in s.spaces && t == DropStep(s, ts)
    ensures Recorded(t)
  {
    hide AnsweredTo;
    forall tid | tid in s.spaces[ts].parked
      ensures tid in s.waiting
    {
      assert ParkedIn(s, ts, tid);
    }
    hide ParkedWait;
  }

  lemma DropAnswers(s: State, ts: TsId, t: State)
    requires AnsweredOnce(s) && Recorded(s) && ParkedWait(s) && ts in s.spaces && t == DropStep(s, ts)
    ensures AnsweredOnce(t)
  {
    hide AnsweredTo;
    forall tid | tid in s.spaces[ts].parked
      ensures tid in s.waiting && tid !in s.stranded
    {
      assert ParkedIn(s, ts, tid);
    }
    hide ParkedWait, Recorded;
  }

  lemma DropConserves(s: State, ts: TsId, t: State)
    requires Conserved(s) && ts in s.spaces && t == DropStep(s, ts)
    ensures Conserved(t)
  {
    hide TakenBy;
    forall ts', tup
      ensures multiset(t.dropped)[(ts', tup)] == multiset(s.dropped)[(ts', tup)] + if ts' == ts then multiset(s.spaces[ts].contain)[tup] else 0
    {
      LabelledCounts(ts, s.spaces[ts].contain, ts', tup);
      assert multiset(t.dropped) == multiset(s.dropped) + multiset(Labelled(ts, s.spaces[ts].contain));
    }
  }

  // ---- Threads and processes -----------------------------------------------------------------------

  lemma LeaveKeepsInv(s: State, pid: Pid)
    requires Inv(s)
    ensures Inv(LeaveStep(s, pid))
  {
    hide TakenBy, AnsweredTo, Conserved, ParkedWait, WaitingPend, ReturningWait, AnsweredOnce, NoneOverlooked, Recorded;
    var t := LeaveStep(s, pid);
    LeaveRecords(s, pid, t);
    OnlyRecords(s, t);
  }

  lemma LeaveRecords(s: State, pid: Pid, t: State)
    requires Recorded(s) && t == LeaveStep(s, pid)
    ensures Recorded(t)
  {
    hide AnsweredTo;
  }

  lemma OnlyRecords(s: State, t: State)
    requires Inv(s) && Recorded(t)
    requires t == s.(threads := t.threads, counts := t.counts, blocked := t.blocked, forgotten := t.forgotten)
    ensures Inv(t)
  {
    hide TakenBy, AnsweredTo, NoneOverlooked, Recorded;
    SameParked(s, t);
    hide ParkedWait, WaitingPend, ReturningWait, ParkedIn;
  }

  // ---- Whole runs ----------------------------------------------------------------------------------

  datatype Event =
    | NewSpace(ts: TsId, requests: seq<Request>)
    | DropSpace(ts: TsId)
    | PutIn(ts: TsId, tup: Tuple, order: seq<Tid>)
    | Get(ts: TsId, tid: Tid, pattern: Tuple, unblockable: bool, destructive: bool)
    | Return(i: nat)
    | UnblockOne(ts: TsId, tid: Tid)
    | CollectAll(ts: TsId, pattern: Tuple)
    | NewProcess(pid: Pid)
    | NewThread(pid: Pid)
    | ThreadLeaves(tid: Tid)
    | ProcessLeaves(pid: Pid)

  /** A thread asks only when it has no request that is not answered, nor if its process left while it had;
      tuples hold no types; process ids are new. */
  ghost predicate Possible(s: State, e: Event) {
    match e
    case NewSpace(ts, _) => ts !in s.spaces
    case DropSpace(ts) => ts in s.spaces
    case PutIn(ts, tup, order) => ts in s.spaces && IsActual(tup) && Lists(order, s.spaces[ts].parked)
    case Get(_, tid, _, _, _) => Idle(s, tid)
    case Return(i) => i < |s.returning|
    case UnblockOne(ts, tid) => ParkedIn(s, ts, tid) && s.spaces[ts].parked[tid].unblockable
    case CollectAll(ts, _) => ts in s.spaces
    case NewProcess(pid) => pid !in s.counts
    case NewThread(pid) => pid in s.counts
    case ThreadLeaves(tid) => tid.process in s.threads && tid in s.threads[tid.process]
    case ProcessLeaves(pid) => pid in s.threads
  }

  ghost function After(s: State, e: Event): State
    requires Possible(s, e)
  {
    match e
    case NewSpace(ts, requests) => s.(spaces := s.spaces[ts := Space([], map[], requests)])
    case DropSpace(ts) => DropStep(s, ts)
    case PutIn(ts, tup, order) => OutStep(s, ts, tup, order)
    case Get(ts, tid, pattern, u, d) => GetStep(s, ts, tid, pattern, u, d)
    case Return(i) => ReturnStep(s, i)
    case UnblockOne(ts, tid) => UnblockStep(s, ts, tid)
    case CollectAll(ts, pattern) => CollectStep(s, ts, pattern)
    case NewProcess(pid) => s.(threads := s.threads[pid := {}], counts := s.counts[pid := 0])
    case NewThread(pid) => RegisterStep(s, pid)
    case ThreadLeaves(tid) => ThreadLeaveStep(s, tid)
    case ProcessLeaves(pid) => LeaveStep(s, pid)
  }

  ghost predicate Step(s: State, t: State) {
    exists e :: Possible(s, e) && t == After(s, e)
  }

  const START: State := State(map[], map[], [], map[], map[], map[], {}, {}, [], [], [], [], [], [], [])

  ghost predicate Run(run: seq<State>) {
    run != [] && run[0] == START && forall i, j :: 0 <= i && j == i + 1 && j < |run| ==> Step(run[i], run[j])
  }

  lemma StepKeepsInv(s: State, t: State)
    requires Inv(s) && Step(s, t)
    ensures Inv(t)
  {
    hide Inv, OutStep, GetStep, ReturnStep, UnblockStep, CollectStep, DropStep, LeaveStep, ThreadLeaveStep, RegisterStep, ParkedIn;
    var e :| Possible(s, e) && t == After(s, e);
    match e
    case NewSpace(ts, requests) => NewSpaceKeepsInv(s, ts, requests);
    case DropSpace(ts) => DropKeepsInv(s, ts);
    case PutIn(ts, tup, order) => OutKeepsInv(s, ts, tup, order);
    case Get(ts, tid, pattern, u, d) => GetKeepsInv(s, ts, tid, pattern, u, d);
    case Return(i) => ReturnKeepsInv(s, i);
    case UnblockOne(ts, tid) => UnblockKeepsInv(s, ts, tid);
    case CollectAll(ts, pattern) => CollectKeepsInv(s, ts, pattern);
    case NewProcess(pid) => RegisterKeepsInv(s, t);
    case NewThread(pid) => RegisterThreadKeepsInv(s, pid);
    case ThreadLeaves(tid) => ThreadLeaveKeepsInv(s, tid);
    case ProcessLeaves(pid) => LeaveKeepsInv(s, pid);
  }

  lemma RegisterKeepsInv(s: State, t: State)
    requires Inv(s) && t == s.(threads := t.threads, counts := t.counts)
    ensures Inv(t)
  {
    hide AnsweredTo, Conserved, ParkedWait, WaitingPend, ReturningWait, AnsweredOnce, NoneOverlooked;
    OnlyRecords(s, t);
  }

  lemma RegisterThreadKeepsInv(s: State, pid: Pid)
    requires Inv(s) && pid in s.counts
    ensures Inv(RegisterStep(s, pid))
  {
    hide Inv;
    RegisterKeepsInv(s, RegisterStep(s, pid));
  }

  lemma ThreadLeaveKeepsInv(s: State, tid: Tid)
    requires Inv(s) && tid.process in s.threads
    ensures Inv(ThreadLeaveStep(s, tid))
  {
    hide Inv, LeaveStep;
    var t := s.(threads := s.threads[tid.process := s.threads[tid.process] - {tid}]);
    RegisterKeepsInv(s, t);
    LeaveKeepsInv(t, tid.process);
  }

  lemma {:induction false} RunInv(run: seq<State>, i: nat)
    requires Run(run) && i < |run|
    ensures Inv(run[i])
  {
    hide Inv, Step;
    if i == 0 {
      StartInv();
    } else {
      RunInv(run, i - 1);
      StepKeepsInv(run[i - 1], run[i]);
    }
  }

  lemma StartInv()
    ensures Inv(START)
  {
  }

  /** In every run: whatever was put is stored or left exactly once. */
  lemma TuplesAreConserved(run: seq<State>, i: nat, ts: TsId, tup: Tuple)
    requires Run(run) && i < |run|
    ensures var t := run[i];
      multiset(t.outs)[(ts, tup)] == multiset(Stored(t, ts))[tup] + TakenBy(t.sent, ts, tup) + TakenBy(t.lost, ts, tup) +
      TakenBy(t.returning, ts, tup) + multiset(SentOn(t.forwarded))[(ts, tup)] + multiset(t.collected)[(ts, tup)] + multiset(t.dropped)[(ts, tup)]
  {
    hide Run, ParkedWait, WaitingPend, ReturningWait, AnsweredOnce, NoneOverlooked, Recorded;
    RunInv(run, i);
  }

  // ---- Leaving and being left ----------------------------------------------------------------------

  /** The thread is parked, or a reply to it is on its way. */
  ghost predicate Waits(s: State, tid: Tid) {
    (exists ts :: ParkedIn(s, ts, tid)) || AnsweredTo(s.returning, tid) > 0
  }

  ghost predicate Leaves(s: State, e: Event, pid: Pid) {
    e == ProcessLeaves(pid) || (e.ThreadLeaves? && e.tid.process == pid && pid in s.threads && s.threads[pid] <= {e.tid})
  }

  /** The process of tid leaves. */
  ghost predicate LeavesBetween(s: State, t: State, tid: Tid) {
    exists e :: Possible(s, e) && t == After(s, e) && Leaves(s, e, tid.process)
  }

  /** The space in which tid is parked is deleted, or tid asks in one that is missing. */
  ghost predicate Strands(s: State, e: Event, tid: Tid) {
    (e.DropSpace? && ParkedIn(s, e.ts, tid)) || (e.Get? && e.tid == tid && e.ts !in s.spaces)
  }

  ghost predicate StrandedBetween(s: State, t: State, tid: Tid) {
    exists e :: Possible(s, e) && t == After(s, e) && Strands(s, e, tid)
  }

  /** In every run: a thread that waits is parked in one space or has one reply on its way, and never both, and
      is not stranded; each request got one reply, or lost its one reply, but for the request of a thread that
      still waits or is stranded; and these threads are recorded as blocked, on the space they asked, but for
      those that are forgotten. */
  lemma BlockedMeansWaiting(run: seq<State>, i: nat, tid: Tid)
    requires Run(run) && i < |run|
    ensures var t := run[i]; AnsweredTo(t.returning, tid) <= 1
    ensures var t := run[i]; forall x, y :: ParkedIn(t, x, tid) && ParkedIn(t, y, tid) ==> x == y && AnsweredTo(t.returning, tid) == 0
    ensures var t := run[i]; !(Waits(t, tid) && tid in t.stranded)
    ensures var t := run[i];
      multiset(t.asked)[tid] == AnsweredTo(t.sent, tid) + AnsweredTo(t.lost, tid) +
      (if Waits(t, tid) then 1 else 0) + (if tid in t.stranded then 1 else 0)
    ensures var t := run[i]; tid in t.blocked <==> (Waits(t, tid) || tid in t.stranded) && tid !in t.forgotten
    ensures var t := run[i]; tid in t.blocked ==> forall x :: ParkedIn(t, x, tid) ==> t.blocked[tid] == x
    ensures var t := run[i]; AnsweredTo(t.lost, tid) > 0 ==> tid in t.forgotten
  {
    hide Run, Conserved, NoneOverlooked, AnsweredTo;
    RunInv(run, i);
    WaitsMeans(run[i], tid);
    hide Waits, ParkedIn;
  }

  lemma WaitsMeans(s: State, tid: Tid)
    requires Inv(s)
    ensures Waits(s, tid) <==> tid in s.waiting
  {
    hide Conserved, NoneOverlooked, AnsweredTo, AnsweredOnce, Recorded, ParkedIn;
  }

  /** A step forgets exactly those threads of a process that leaves which have a request that is not answered. */
  lemma ForgottenBy(s: State, t: State, tid: Tid)
    requires Inv(s) && Step(s, t)
    ensures tid in t.forgotten <==> tid in s.forgotten || (LeavesBetween(s, t, tid) && (Waits(s, tid) || tid in s.stranded))
  {
    hide Conserved, NoneOverlooked, AnsweredTo, AnsweredOnce, ParkedWait, WaitingPend, ReturningWait, Waits, Leaves, Possible, After;
    WaitsMeans(s, tid);
    var e :| Possible(s, e) && t == After(s, e);
    ForgottenAfter(s, e, tid);
    if LeavesBetween(s, t, tid) {
      var l :| Possible(s, l) && t == After(s, l) && Leaves(s, l, tid.process);
      ForgottenAfter(s, l, tid);
    }
  }

  lemma ForgottenAfter(s: State, e: Event, tid: Tid)
    requires Possible(s, e)
    ensures tid in After(s, e).forgotten <==> tid in s.forgotten || (Leaves(s, e, tid.process) && tid in s.blocked)
  {
    hide OutStep, GetStep, ReturnStep, UnblockStep, CollectStep, DropStep, RegisterStep, ParkedIn, Lists, IsActual;
    if !e.ThreadLeaves? && !e.ProcessLeaves? {
      OthersForgetNobody(s, e);
    }
  }

  lemma OthersForgetNobody(s: State, e: Event)
    requires Possible(s, e) && !e.ThreadLeaves? && !e.ProcessLeaves?
    ensures After(s, e).forgotten == s.forgotten
  {
    match e
    case PutIn(ts, tup, order) => OutForgetsNobody(s, ts, tup, order);
    case Get(ts, tid, pattern, u, d) => GetForgetsNobody(s, ts, tid, pattern, u, d);
    case _ => hide OutStep, GetStep, Lists, Matching, LeaveStep, ThreadLeaveStep;
  }

  lemma OutForgetsNobody(s: State, ts: TsId, tup: Tuple, order: seq<Tid>)
    requires ts in s.spaces && Lists(order, s.spaces[ts].parked)
    ensures OutStep(s, ts, tup, order).forgotten == s.forgotten && OutStep(s, ts, tup, order).stranded == s.stranded
  {
    hide WithoutKeys, Woken, Caught, Answers, FirstRequest, AllDistinct;
  }

  lemma GetForgetsNobody(s: State, ts: TsId, tid: Tid, pattern: Tuple, unblockable: bool, destructive: bool)
    ensures var t := GetStep(s, ts, tid, pattern, unblockable, destructive);
      t.forgotten == s.forgotten && t.stranded == if ts in s.spaces then s.stranded else s.stranded + {tid}
  {
    hide Matching, WithoutFirst;
  }

  /** A step strands exactly the threads parked in a space that is deleted and one that asks in a missing one. */
  lemma StrandedBy(s: State, t: State, tid: Tid)
    requires Step(s, t)
    ensures tid in t.stranded <==> tid in s.stranded || StrandedBetween(s, t, tid)
  {
    hide Possible, After, Strands;
    var e :| Possible(s, e) && t == After(s, e);
    StrandedAfter(s, e, tid);
    if StrandedBetween(s, t, tid) {
      var l :| Possible(s, l) && t == After(s, l) && Strands(s, l, tid);
      StrandedAfter(s, l, tid);
    }
  }

  lemma StrandedAfter(s: State, e: Event, tid: Tid)
    requires Possible(s, e)
    ensures tid in After(s, e).stranded <==> tid in s.stranded || Strands(s, e, tid)
  {
    match e
    case PutIn(ts, tup, order) => OutForgetsNobody(s, ts, tup, order);
    case Get(ts, x, pattern, u, d) => GetForgetsNobody(s, ts, x, pattern, u, d);
    case _ => hide OutStep, GetStep, Lists, Matching;
  }

  /** In every run the forgotten threads are exactly those whose process left while they were parked, had a
      reply on its way, or were stranded. */
  lemma {:induction false} ForgottenExactly(run: seq<State>, i: nat, tid: Tid)
    requires Run(run) && i < |run|
    ensures tid in run[i].forgotten <==>
      exists j, k :: 0 <= j < i && k == j + 1 && LeavesBetween(run[j], run[k], tid) && (Waits(run[j], tid) || tid in run[j].stranded)
  {
    hide Step, LeavesBetween, Inv, Waits;
    if i > 0 {
      ForgottenExactly(run, i - 1, tid);
      RunInv(run, i - 1);
      ForgottenBy(run[i - 1], run[i], tid);
    }
  }

  /** In every run the stranded threads are exactly those that were parked in a space when it was deleted, or
      that asked in a space that was missing. */
  lemma {:induction false} StrandedExactly(run: seq<State>, i: nat, tid: Tid)
    requires Run(run) && i < |run|
    ensures tid in run[i].stranded <==> exists j, k :: 0 <= j < i && k == j + 1 && StrandedBetween(run[j], run[k], tid)
  {
    hide Step, StrandedBetween;
    if i > 0 {
      StrandedExactly(run, i - 1, tid);
      StrandedBy(run[i - 1], run[i], tid);
    }
  }

  ghost predicate NobodyLeavesWaiting(run: seq<State>) {
    forall j, k, tid :: 0 <= j && k == j + 1 && k < |run| ==> !(LeavesBetween(run[j], run[k], tid) && Waits(run[j], tid))
  }

  ghost predicate NobodyIsStranded(run: seq<State>) {
    forall j, k, tid :: 0 <= j && k == j + 1 && k < |run| ==> !StrandedBetween(run[j], run[k], tid)
  }

  /** The record of blocked threads agrees with who waits in all states of a run exactly if in that run no
      process leaves while one of its threads is parked or has a reply on its way, no space is deleted in which
      a thread is parked, and no thread asks in a space that is missing. */
  lemma RecordsAgreeExactly(run: seq<State>)
    requires Run(run)
    ensures NobodyLeavesWaiting(run) && NobodyIsStranded(run) <==>
      forall i, tid :: 0 <= i < |run| ==> (tid in run[i].blocked <==> Waits(run[i], tid))
  {
    hide Step, LeavesBetween, StrandedBetween, Inv, Waits, Run;
    if NobodyLeavesWaiting(run) && NobodyIsStranded(run) {
      forall i, tid | 0 <= i < |run|
        ensures tid in run[i].blocked <==> Waits(run[i], tid)
      {
        NobodyIsForgotten(run, i, tid);
        BlockedMeansWaiting(run, i, tid);
      }
    } else if !NobodyLeavesWaiting(run) {
      var j, k, tid :| 0 <= j && k == j + 1 && k < |run| && LeavesBetween(run[j], run[k], tid) && Waits(run[j], tid);
      ForgottenExactly(run, k, tid);
      BlockedMeansWaiting(run, k, tid);
      StillWaits(run, j, tid);
    } else {
      var j, k, tid :| 0 <= j && k == j + 1 && k < |run| && StrandedBetween(run[j], run[k], tid);
      StrandedDisagrees(run, j, tid);
    }
  }

  /** In such a run no reply is lost: every request has its one reply or is recorded. */
  lemma NothingIsLost(run: seq<State>, i: nat, tid: Tid)
    requires Run(run) && i < |run| && NobodyLeavesWaiting(run) && NobodyIsStranded(run)
    ensures run[i].lost == []
    ensures multiset(run[i].asked)[tid] == AnsweredTo(run[i].sent, tid) + if tid in run[i].blocked then 1 else 0
  {
    hide Step, LeavesBetween, StrandedBetween, Inv, Waits, Run, NobodyLeavesWaiting, NobodyIsStranded;
    if run[i].lost != [] {
      var lost := run[i].lost[0].tid;
      assert AnsweredTo(run[i].lost, lost) > 0;
      NobodyIsForgotten(run, i, lost);
      BlockedMeansWaiting(run, i, lost);
    }
    NobodyIsForgotten(run, i, tid);
    BlockedMeansWaiting(run, i, tid);
  }

  lemma NobodyIsForgotten(run: seq<State>, i: nat, tid: Tid)
    requires Run(run) && i < |run| && NobodyLeavesWaiting(run) && NobodyIsStranded(run)
    ensures tid !in run[i].forgotten && tid !in run[i].stranded
  {
    hide Step, LeavesBetween, StrandedBetween, Waits, Run;
    StrandedExactly(run, i, tid);
    ForgottenExactly(run, i, tid);
    if tid in run[i].forgotten {
      var j, k :| 0 <= j < i && k == j + 1 && LeavesBetween(run[j], run[k], tid) && (Waits(run[j], tid) || tid in run[j].stranded);
      StrandedExactly(run, j, tid);
    }
  }

  /** A thread that is stranded is recorded afterwards though it does not wait, or was not before though it did. */
  lemma StrandedDisagrees(run: seq<State>, j: nat, tid: Tid)
    requires Run(run) && j + 1 < |run| && StrandedBetween(run[j], run[j + 1], tid)
    ensures (Waits(run[j], tid) && tid !in run[j].blocked) || (!Waits(run[j + 1], tid) && tid in run[j + 1].blocked)
  {
    hide Step, Inv, Waits, Run;
    BlockedMeansWaiting(run, j, tid);
    BlockedMeansWaiting(run, j + 1, tid);
    StrandedExactly(run, j + 1, tid);
    RunInv(run, j);
    StrandedWaited(run[j], run[j + 1], tid);
  }

  lemma StrandedWaited(s: State, t: State, tid: Tid)
    requires StrandedBetween(s, t, tid)
    ensures t.forgotten == s.forgotten && (Waits(s, tid) || tid !in s.forgotten)
  {
    hide AnsweredTo;
    var e :| Possible(s, e) && t == After(s, e) && Strands(s, e, tid);
    match e
    case DropSpace(ts) =>
    case Get(ts, x, _, _, _) =>
    case _ =>
  }

  /** Leaving does not end the waiting. */
  lemma StillWaits(run: seq<State>, j: nat, tid: Tid)
    requires Run(run) && j + 1 < |run| && LeavesBetween(run[j], run[j + 1], tid) && Waits(run[j], tid)
    ensures Waits(run[j + 1], tid)
  {
    hide Matches, AnsweredTo, OutStep, GetStep, ReturnStep, UnblockStep, CollectStep, DropStep, Run;
    assert forall ts :: ParkedIn(run[j], ts, tid) ==> ParkedIn(run[j + 1], ts, tid);
  }

  // A thread takes from an empty space, is parked, and leaves with its process.
  const TUPLE: Tuple := [Actual("int", 1)]
  const TAKER := Tid("P", 1)
  const ENTERED := START.(threads := map["P" := {}], counts := map["P" := 0])
  const REGISTERED := ENTERED.(threads := map["P" := {TAKER}], counts := map["P" := 1])
  const CREATED := REGISTERED.(spaces := map["S" := Space([], map[], [])])
  const PARKED := CREATED.(spaces := map["S" := Space([], map[TAKER := Waiter(TUPLE, true, true)], [])],
    blocked := map[TAKER := "S"], waiting := map[TAKER := "S"], asked := [TAKER])
  const LEFT := PARKED.(threads := map[], blocked := map[], forgotten := {TAKER})
  const PUT := LEFT.(spaces := map["S" := Space([], map[], [])], outs := [("S", TUPLE)],
    returning := [Answer(TAKER, "S", true, ResultTuple(TUPLE))])
  const LOST := PUT.(returning := [], waiting := map[], lost := [Answer(TAKER, "S", true, ResultTuple(TUPLE))])

  lemma TakerRegisters()
    ensures Step(START, ENTERED) && Step(ENTERED, REGISTERED) && Step(REGISTERED, CREATED)
  {
    assert Possible(START, NewProcess("P")) && ENTERED == After(START, NewProcess("P"));
    assert map["P" := {}]["P"] + {TAKER} == {TAKER};
    assert Possible(ENTERED, NewThread("P")) && REGISTERED == After(ENTERED, NewThread("P"));
    assert Possible(REGISTERED, NewSpace("S", [])) && CREATED == After(REGISTERED, NewSpace("S", []));
  }

  lemma TakerParks()
    ensures Step(CREATED, PARKED)
  {
    var e := Get("S", TAKER, TUPLE, true, true);
    assert Possible(CREATED, e) && PARKED == After(CREATED, e);
  }

  lemma TakerLeaves()
    ensures Step(PARKED, LEFT)
  {
    var e := ThreadLeaves(TAKER);
    assert PARKED.threads["P"] - {TAKER} == {};
    assert ThreadsOf(PARKED.blocked, "P") == {TAKER};
    assert Possible(PARKED, e) && LEFT == After(PARKED, e);
  }

  lemma TakerIsWoken()
    ensures Step(LEFT, PUT)
  {
    var e := PutIn("S", TUPLE, [TAKER]);
    var parked := LEFT.spaces["S"].parked;
    MatchesActual(TUPLE, TUPLE);
    assert [TAKER][0] == TAKER && Woken(parked, [TAKER], TUPLE) == [TAKER] && Caught(parked, [TAKER], TUPLE);
    assert WithoutKeys(parked, [TAKER]) == map[];
    assert [TAKER][1..] == [] && Answers("S", parked, [TAKER]) == PUT.returning;
    assert Possible(LEFT, e) && PUT == After(LEFT, e);
  }

  lemma TupleIsLost()
    ensures Step(PUT, LOST)
  {
    assert Possible(PUT, Return(0)) && LOST == After(PUT, Return(0));
  }

  /** A run in which a process leaves while its only thread is parked. The thread is still parked but no longer
      recorded; unblocking it fails; and a tuple put is handed to it and lost. */
  lemma LeavingLosesTheTuple() returns (run: seq<State>)
    ensures Run(run) && |run| == 8
    ensures ParkedIn(run[5], "S", TAKER) && TAKER !in run[5].blocked
    ensures Possible(run[5], UnblockOne("S", TAKER)) && After(run[5], UnblockOne("S", TAKER)).sent == []
    ensures run[7].outs == [("S", TUPLE)] && Stored(run[7], "S") == [] && run[7].returning == [] && run[7].sent == []
    ensures run[7].lost == [Answer(TAKER, "S", true, ResultTuple(TUPLE))]
  {
    hide Step, Possible, After;
    TakerRegisters();
    TakerParks();
    TakerLeaves();
    TakerIsWoken();
    TupleIsLost();
    run := [START, ENTERED, REGISTERED, CREATED, PARKED, LEFT, PUT, LOST];
    UnblockingFails();
  }

  lemma UnblockingFails()
    ensures ParkedIn(LEFT, "S", TAKER) && TAKER !in LEFT.blocked
    ensures Possible(LEFT, UnblockOne("S", TAKER)) && After(LEFT, UnblockOne("S", TAKER)).sent == []
  {
  }

  // The taker's process gets a second thread, which gives up the only reference to the space and then asks in it.
  const OTHER := Tid("P", 2)
  const JOINED := PARKED.(threads := map["P" := {TAKER, OTHER}], counts := map["P" := 2])
  const DROPPED := JOINED.(spaces := map[], waiting := map[], stranded := {TAKER})
  const MISSED := DROPPED.(blocked := map[TAKER := "S", OTHER := "S"], stranded := {TAKER, OTHER}, asked := [TAKER, OTHER])
  const GONE := LEFT.(spaces := map[], waiting := map[], stranded := {TAKER})

  lemma OtherJoins()
    ensures Step(PARKED, JOINED)
  {
    var e := NewThread("P");
    assert PARKED.threads["P"] + {OTHER} == {TAKER, OTHER};
    assert Possible(PARKED, e) && JOINED == After(PARKED, e);
  }

  lemma SpaceIsDropped(s: State, t: State)
    requires s.spaces == PARKED.spaces && s.waiting == map[TAKER := "S"] && s.stranded == {} && s.dropped == []
    requires t == s.(spaces := map[], waiting := map[], stranded := {TAKER})
    ensures Step(s, t)
  {
    var e := DropSpace("S");
    assert s.spaces["S"].parked.Keys == {TAKER} && s.spaces - {"S"} == map[] && s.waiting - {TAKER} == map[];
    assert Labelled("S", []) == [];
    assert Possible(s, e) && t == After(s, e);
  }

  lemma OtherAsks()
    ensures Step(DROPPED, MISSED)
  {
    var e := Get("S", OTHER, TUPLE, true, true);
    assert Possible(DROPPED, e) && MISSED == After(DROPPED, e);
  }

  /** A run in which nobody leaves: the last reference to a space goes while a thread is parked there, and the
      space with it; the thread stays recorded as blocked, but waits nowhere and has no answer. So does
      a thread that asks in the space afterwards. */
  lemma DroppingStrandsTheTaker() returns (run: seq<State>)
    ensures Run(run) && |run| == 8 && run[7].forgotten == {}
    ensures TAKER in run[6].blocked && !Waits(run[6], TAKER) && run[6].asked == [TAKER]
    ensures OTHER in run[7].blocked && !Waits(run[7], OTHER) && run[7].asked == [TAKER, OTHER]
    ensures run[7].sent == [] && run[7].lost == [] && run[7].returning == []
  {
    hide Step;
    TakerRegisters();
    TakerParks();
    OtherJoins();
    SpaceIsDropped(JOINED, DROPPED);
    OtherAsks();
    run := [START, ENTERED, REGISTERED, CREATED, PARKED, JOINED, DROPPED, MISSED];
  }

  /** A run in which a process leaves while parked in a space that then goes with it: its request is neither
      answered nor lost, and nothing waits for it or records it. */
  lemma LeavingTakesTheSpace() returns (run: seq<State>)
    ensures Run(run) && |run| == 7
    ensures var t := run[6]; t.asked == [TAKER] && t.sent == [] && t.lost == [] && !Waits(t, TAKER) && TAKER !in t.blocked
  {
    hide Step;
    TakerRegisters();
    TakerParks();
    TakerLeaves();
    SpaceIsDropped(LEFT, GONE);
    run := [START, ENTERED, REGISTERED, CREATED, PARKED, LEFT, GONE];
  }

  /** In every run: no template of actual values waits where a tuple that it matches is stored. */
  lemma NoActualTemplateOverlooked(run: seq<State>, i: nat, ts: TsId, tid: Tid, tup: Tuple)
    requires Run(run) && i < |run|
    requires var t := run[i]; ParkedIn(t, ts, tid) && tup in t.spaces[ts].contain && IsActual(t.spaces[ts].parked[tid].pattern)
    ensures !Matches(tup, run[i].spaces[ts].parked[tid].pattern)
  {
    hide Run, Conserved, ParkedWait, WaitingPend, ReturningWait, AnsweredOnce, Recorded, Matches, IsActual;
    RunInv(run, i);
  }

  /** A template with a type is never woken by a tuple put, matching or not. */
  lemma TypedTemplateStaysParked(s: State, ts: TsId, tup: Tuple, order: seq<Tid>, tid: Tid)
    requires ts in s.spaces && Lists(order, s.spaces[ts].parked) && IsActual(tup)
    requires tid in s.spaces[ts].parked && !IsActual(s.spaces[ts].parked[tid].pattern)
    ensures var t := OutStep(s, ts, tup, order); tid in t.spaces[ts].parked && t.spaces[ts].parked[tid] == s.spaces[ts].parked[tid]
  {
    OutDoes(s, ts, tup, order);
    hide OutStep, Woken, Answers, AllDistinct, Matches, IsActual;
  }
}
