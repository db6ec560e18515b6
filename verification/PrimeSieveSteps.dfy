/** Every step of the prime sieve keeps its invariant. */
module PrimeSieveSteps {
  import opened SieveNumbers
  import opened PrimeSieve

  lemma FeedChannels(n: int, s: Net, t: Net)
    requires Stages(n, s) && Channels(n, s) && OnlyChannels(s) && 2 <= s.fed < n && t == Apply(n, s, Feed)
    ensures Channels(n, t) && OnlyChannels(t)
  {
    hide ChannelOk, StageOk, Candidates;
    var item := Fed(s.fed);
    forall j: nat | j <= |t.stages| && ChannelPrime(t, j) != 0
      ensures ChannelOk(n, t.work, ChannelPrime(t, j), Taken(t, j), Sent(t, j))
    {
      if j == 0 {
        if s.fed == 2 {
          NoStageYet(n, s);
          EmptyChannelOk(n, s.work, 2);
          OtherChannelOk(n, s.work, item, 2, 0, 0);
        } else {
          FirstCandidates(n, s.fed - 3);
          SendIsOk(n, s.work, 2, Taken(s, 0), Sent(s, 0));
        }
      } else {
        assert ChannelPrime(t, j) == ChannelPrime(s, j);
        PrimesIncrease(n, s, 0, j);
        OtherChannelOk(n, s.work, item, ChannelPrime(t, j), Taken(t, j), Sent(t, j));
      }
    }
    FeedOnly(s, t);
  }

  lemma FeedOnly(s: Net, t: Net)
    requires OnlyChannels(s) && 2 <= s.fed && t == s.(work := s.work + multiset{Fed(s.fed)}, fed := s.fed + 1)
    ensures OnlyChannels(t)
  {
    forall i | i in t.work
      ensures i.1 == 0 || exists j: nat :: j <= |t.stages| && ChannelPrime(t, j) == i.1
    {
      if i == Fed(s.fed) {
        assert ChannelPrime(t, 0) == 2;
      } else {
        assert i in s.work;
        if i.1 != 0 {
          var j: nat :| j <= |s.stages| && ChannelPrime(s, j) == i.1;
          assert ChannelPrime(t, j) == i.1;
        }
      }
    }
  }

  lemma NoStageYet(n: int, s: Net)
    requires Stages(n, s) && s.fed == 2
    ensures s.stages == []
    ensures OnlyChannels(s) ==> forall t :: t in s.work ==> t.1 == 0
  {
    if s.stages != [] {
      AtLeastTwo(n, s.stages[0]);
    }
  }

  lemma FeedKeepsInv(n: int, tokens: nat, slaves: nat, s: Net, t: Net)
    requires Inv(n, tokens, slaves, s) && Enabled(n, s, Feed) && t == Apply(n, s, Feed)
    ensures Inv(n, tokens, slaves, t)
  {
    hide ChannelOk, StageOk, Channels, OnlyChannels, PrimeTsOut, Announcers, HandedOver, NewPrime, Stages;
    FeedChannels(n, s, t);
    FeedKeepsStages(n, s, t);
    FeedKeepsNewPrime(n, s, t);
  }

  lemma FeedKeepsStages(n: int, s: Net, t: Net)
    requires Stages(n, s) && Enabled(n, s, Feed) && s.fed >= 2 && t == Apply(n, s, Feed)
    ensures Stages(n, t)
  {
    hide StageOk;
    if s.fed == 2 {
      NoStageYet(n, s);
    }
  }

  lemma FeedKeepsNewPrime(n: int, s: Net, t: Net)
    requires Stages(n, s) && Enabled(n, s, Feed) && s.fed >= 2 && t == Apply(n, s, Feed)
    requires NewPrime(s, ChannelPrime(s, |s.stages|))
    ensures NewPrime(t, ChannelPrime(t, |t.stages|))
  {
    hide StageOk;
    if s.fed == 2 {
      NoStageYet(n, s);
    } else {
      assert ChannelPrime(t, |t.stages|) == ChannelPrime(s, |s.stages|);
    }
  }

  lemma TokensOnlyChannels(s: Net, t: Net)
    requires OnlyChannels(s) && t.stages == s.stages && t.fed == s.fed
    requires forall i :: i in t.work ==> i in s.work
    ensures OnlyChannels(t)
  {
    forall i | i in t.work && i.1 != 0
      ensures exists j: nat :: j <= |t.stages| && ChannelPrime(t, j) == i.1
    {
      var j: nat :| j <= |s.stages| && ChannelPrime(s, j) == i.1;
      assert ChannelPrime(t, j) == i.1;
    }
  }

  lemma PrintKeepsInv(n: int, tokens: nat, slaves: nat, s: Net, x: int, t: Net)
    requires Inv(n, tokens, slaves, s) && Enabled(n, s, Print(x)) && t == Apply(n, s, Print(x))
    ensures Inv(n, tokens, slaves, t)
  {
    hide ChannelOk, Stages, Channels, PrimeTsOut, Announcers, NewPrime, OnlyChannels, HandedOver;
    TokensOnlyChannels(s, t);
    OthersKeepChannels(n, s, t, (0, 0, 0));
    NewPrimeStays(s, t, ChannelPrime(s, |s.stages|));
    PrintedOrAnnounced(s.printed, s.announced, x);
  }

  lemma PrintedOrAnnounced(printed: seq<int>, announced: multiset<int>, x: int)
    requires x in announced
    ensures multiset(printed + [x]) + (announced - multiset{x}) == multiset(printed) + announced
  {
    assert multiset(printed + [x]) == multiset(printed) + multiset{x};
  }

  lemma SlaveStartsKeepsInv(n: int, tokens: nat, slaves: nat, s: Net, t: Net)
    requires Inv(n, tokens, slaves, s) && Enabled(n, s, SlaveStarts) && t == Apply(n, s, SlaveStarts)
    ensures Inv(n, tokens, slaves, t)
  {
    hide ChannelOk, Stages, Channels, PrimeTsOut, Announcers, NewPrime, OnlyChannels, HandedOver;
    TokensOnlyChannels(s, t);
    OthersKeepChannels(n, s, t, (0, 0, 0));
    NewPrimeStays(s, t, ChannelPrime(s, |s.stages|));
  }

  lemma SlaveTakesKeepsInv(n: int, tokens: nat, slaves: nat, s: Net, item: Item, t: Net)
    requires Inv(n, tokens, slaves, s) && Enabled(n, s, SlaveTakes(item)) && t == Apply(n, s, SlaveTakes(item))
    ensures Inv(n, tokens, slaves, t)
  {
    hide ChannelOk, Stages, Channels, PrimeTsOut, Announcers, NewPrime, OnlyChannels, HandedOver;
    TokensOnlyChannels(s, t);
    OthersKeepChannels(n, s, t, item);
    SlaveTakesNewPrime(n, s, ChannelPrime(s, |s.stages|), item);
  }

  lemma SlaveReturnsKeepsInv(n: int, tokens: nat, slaves: nat, s: Net, x: int, t: Net)
    requires Inv(n, tokens, slaves, s) && Enabled(n, s, SlaveReturns(x)) && t == Apply(n, s, SlaveReturns(x))
    ensures Inv(n, tokens, slaves, t)
  {
    hide ChannelOk, Stages, Channels, PrimeTsOut, Announcers, NewPrime, OnlyChannels, HandedOver;
    TokensOnlyChannels(s, t);
    OthersKeepChannels(n, s, t, (0, 0, 0));
    SlaveKeepsNewPrime(n, s, ChannelPrime(s, |s.stages|), x);
  }

  lemma SameStages(n: int, s: Net, t: Net)
    requires Stages(n, s) && t.stages == s.stages && t.fed == s.fed
    ensures Stages(n, t)
    ensures forall j: nat :: j <= |s.stages| ==> ChannelPrime(t, j) == ChannelPrime(s, j) && Taken(t, j) == Taken(s, j) && Sent(t, j) == Sent(s, j)
  {
    hide StageOk;
  }

  /** Steps of others may only take new primes from the space. */
  lemma OthersKeepChannels(n: int, s: Net, t: Net, item: Item)
    requires Stages(n, s) && Channels(n, s) && t.stages == s.stages && t.fed == s.fed
    requires t.work == s.work || (t.work == s.work - multiset{item} && item.1 == 0)
    ensures Stages(n, t) && Channels(n, t)
  {
    hide ChannelOk, Stages, ChannelPrime, Sent, Taken;
    SameStages(n, s, t);
    forall j: nat | j <= |t.stages| && ChannelPrime(t, j) != 0
      ensures ChannelOk(n, t.work, ChannelPrime(t, j), Taken(t, j), Sent(t, j))
    {
      if t.work != s.work {
        ChannelAtLeastTwo(n, s, j);
        OtherChannelOk(n, s.work, item, ChannelPrime(t, j), Taken(t, j), Sent(t, j));
      }
    }
  }

  lemma NewPrimeStays(s: Net, t: Net, q: int)
    requires NewPrime(s, q) && t.work == s.work && t.returning == s.returning && t.spawning == s.spawning
    ensures NewPrime(t, q)
  {
  }

  lemma SlaveKeepsNewPrime(n: int, s: Net, q: int, x: int)
    requires NewPrime(s, q) && Enabled(n, s, SlaveReturns(x))
    ensures var t := Apply(n, s, SlaveReturns(x)); NewPrime(t, q) && |t.returning| + |t.spawning| == |s.returning| + |s.spawning|
  {
    hide NewInWork;
  }

  lemma SlaveTakesNewPrime(n: int, s: Net, q: int, item: Item)
    requires NewPrime(s, q) && Enabled(n, s, SlaveTakes(item))
    ensures var t := Apply(n, s, SlaveTakes(item)); NewPrime(t, q) && |t.returning| + |t.spawning| == |s.returning| + |s.spawning| + 1
  {
    TakeNewPrime(s, q, item);
    TakenOut(s.work, q, item);
    hide NewInWork;
  }

  lemma TakeNewPrime(s: Net, q: int, item: Item)
    requires NewPrime(s, q) && item in s.work && item.1 == 0
    ensures q != 0 && s.returning == s.spawning == multiset{} && item == (q, 0, 0)
    ensures NewInWork(s.work, true, q)
  {
    var x, k := item.0, item.2;
    assert item == (x, 0, k);
    assert s.work[(x, 0, k)] > 0;
  }

  lemma TakenOut(work: multiset<Item>, q: int, item: Item)
    requires NewInWork(work, true, q) && item == (q, 0, 0)
    ensures NewInWork(work - multiset{item}, false, q)
  {
  }

  lemma SpawnKeepsInv(n: int, tokens: nat, slaves: nat, s: Net, x: int, t: Net)
    requires Inv(n, tokens, slaves, s) && Enabled(n, s, SlaveSpawns(x)) && t == Apply(n, s, SlaveSpawns(x))
    ensures Inv(n, tokens, slaves, t)
  {
    hide ChannelOk, StageOk, Channels, OnlyChannels, PrimeTsOut, Announcers, HandedOver, Stages, ChannelPrime;
    var m := |s.stages|;
    SpawnPrime(n, s, x, t);
    SpawnChannels(n, s, x, t);
    SpawnHandsOver(n, s, x, t);
    assert t.stages[..m] == s.stages;
  }

  lemma SpawnPrime(n: int, s: Net, x: int, t: Net)
    requires x in s.spawning && NewPrime(s, ChannelPrime(s, |s.stages|)) && Stages(n, s)
    requires t == Apply(n, s, SlaveSpawns(x))
    ensures x == ChannelPrime(s, |s.stages|) && x >= 2
    ensures s.spawning == multiset{x} && s.returning == multiset{}
    ensures NewPrime(t, 0) && ChannelPrime(t, |t.stages|) == 0
    ensures !LastStarting(s)
  {
    hide StageOk;
    var m := |s.stages|;
    if m > 0 {
      FoundIsLarger(n, s.stages[m - 1]);
      AtLeastTwo(n, s.stages[m - 1]);
    }
  }

  lemma SpawnChannels(n: int, s: Net, x: int, t: Net)
    requires Stages(n, s) && Channels(n, s) && OnlyChannels(s) && x >= 2 && x == ChannelPrime(s, |s.stages|)
    requires x in s.spawning && t == Apply(n, s, SlaveSpawns(x))
    ensures Stages(n, t) && Channels(n, t) && OnlyChannels(t)
  {
    hide ChannelOk, StageOk;
    var m := |s.stages|;
    assert forall j: nat :: j <= m ==> ChannelPrime(t, j) == ChannelPrime(s, j) && Taken(t, j) == Taken(s, j) && Sent(t, j) == Sent(s, j);
    NewStageOk(n, x);
    forall i | i in t.work && i.1 != 0
      ensures exists j: nat :: j <= |t.stages| && ChannelPrime(t, j) == i.1
    {
      var j: nat :| j <= |s.stages| && ChannelPrime(s, j) == i.1;
      assert ChannelPrime(t, j) == i.1;
    }
  }

  lemma NewStageOk(n: int, x: int)
    requires x >= 2
    ensures StageOk(n, Stage(x, TakePrimeTs, 0, 0, 0))
  {
  }

  lemma SpawnHandsOver(n: int, s: Net, x: int, t: Net)
    requires Stages(n, s) && x == ChannelPrime(s, |s.stages|) && x != 0 && HandedOver(s.stages)
    requires x in s.spawning && t == Apply(n, s, SlaveSpawns(x))
    ensures HandedOver(t.stages) && PrimeTsOut(t.stages) == PrimeTsOut(s.stages)
    ensures Announcers(t.stages) == Announcers(s.stages)
  {
    hide StageOk;
    var m := |s.stages|;
    assert t.stages[..m] == s.stages;
    if m > 0 {
      FoundIsLarger(n, s.stages[m - 1]);
    }
  }

  /** The item a stage takes is the next number meant for it. */
  lemma StageReceives(n: int, s: Net, j: nat, item: Item)
    requires Stages(n, s) && Channels(n, s) && Enabled(n, s, StageTakes(j, item))
    ensures var g := s.stages[j]; g.count < |Candidates(g.prime, n)| && item.0 == Candidates(g.prime, n)[g.count]
    ensures StageOk(n, AfterTake(s.stages[j], item.0)) && Found(AfterTake(s.stages[j], item.0)) == Found(s.stages[j])
    ensures ChannelOk(n, s.work - multiset{item}, s.stages[j].prime, s.stages[j].count + 1, Sent(s, j))
  {
    hide ChannelOk, StageOk, Sent, ChannelPrime, Found, AfterTake;
    var g := s.stages[j];
    AtLeastTwo(n, g);
    assert ChannelOk(n, s.work, g.prime, g.count, Sent(s, j));
    ReceiveIsOk(n, s.work, g.prime, g.count, Sent(s, j), item);
    SentFits(n, s.work, g.prime, g.count, Sent(s, j));
    TakeIsOk(n, g, item.0);
  }

  lemma SentFits(n: int, work: multiset<Item>, p: int, taken: nat, sent: int)
    requires ChannelOk(n, work, p, taken, sent)
    ensures sent <= |Candidates(p, n)|
  {
  }

  lemma StageTakesChannels(n: int, s: Net, j: nat, item: Item, t: Net)
    requires Stages(n, s) && Channels(n, s) && OnlyChannels(s) && Enabled(n, s, StageTakes(j, item)) && t == Apply(n, s, StageTakes(j, item))
    ensures Stages(n, t) && Channels(n, t) && OnlyChannels(t)
  {
    hide ChannelOk, StageOk, AfterTake, Found, OnlyChannels;
    StageReceives(n, s, j, item);
    StageTakesStages(n, s, j, item, t);
    forall i: nat | i <= |t.stages| && ChannelPrime(t, i) != 0
      ensures ChannelOk(n, t.work, ChannelPrime(t, i), Taken(t, i), Sent(t, i))
    {
      if i != j {
        StageTakesElsewhere(n, s, j, item, i);
      } else {
        assert Taken(t, j) == s.stages[j].count + 1 && ChannelPrime(t, j) == s.stages[j].prime;
      }
    }
    StepOnly(s, t);
  }

  lemma StageTakesStages(n: int, s: Net, j: nat, item: Item, t: Net)
    requires Stages(n, s) && Enabled(n, s, StageTakes(j, item)) && t == Apply(n, s, StageTakes(j, item))
    requires StageOk(n, AfterTake(s.stages[j], item.0)) && Found(AfterTake(s.stages[j], item.0)) == Found(s.stages[j])
    ensures Stages(n, t) && forall i: nat :: i <= |s.stages| ==> ChannelPrime(t, i) == ChannelPrime(s, i) && Sent(t, i) == Sent(s, i)
    ensures forall i: nat :: i != j ==> Taken(t, i) == Taken(s, i)
    ensures Taken(t, j) == Taken(s, j) + 1
  {
    hide StageOk, Found, Divides;
  }

  lemma StageTakesElsewhere(n: int, s: Net, j: nat, item: Item, i: nat)
    requires Stages(n, s) && Channels(n, s) && Enabled(n, s, StageTakes(j, item))
    requires i != j && i <= |s.stages| && ChannelPrime(s, i) != 0
    ensures ChannelOk(n, s.work - multiset{item}, ChannelPrime(s, i), Taken(s, i), Sent(s, i))
  {
    hide ChannelOk, StageOk;
    AtLeastTwo(n, s.stages[j]);
    if i < j {
      PrimesIncrease(n, s, i, j);
    } else {
      PrimesIncrease(n, s, j, i);
    }
    OtherChannelOk(n, s.work, item, ChannelPrime(s, i), Taken(s, i), Sent(s, i));
  }

  lemma StepOnly(s: Net, t: Net)
    requires OnlyChannels(s) && |t.stages| == |s.stages|
    requires forall i: nat :: i <= |s.stages| && ChannelPrime(s, i) != 0 ==> ChannelPrime(t, i) == ChannelPrime(s, i)
    requires forall i :: i in t.work && i !in s.work && i.1 != 0 ==> exists j: nat :: j <= |t.stages| && ChannelPrime(t, j) == i.1
    ensures OnlyChannels(t)
  {
    forall i | i in t.work && i.1 != 0
      ensures exists j: nat :: j <= |t.stages| && ChannelPrime(t, j) == i.1
    {
      if i in s.work {
        var j: nat :| j <= |s.stages| && ChannelPrime(s, j) == i.1;
        assert ChannelPrime(t, j) == i.1;
      }
    }
  }

  /** What a stage's own tuple operation means for the sequence of stages as a whole. */
  lemma {:induction false} AnnouncersChange(stages: seq<Stage>, j: nat, g: Stage)
    requires j < |stages|
    ensures Announcers(stages[j := g]) + AnnouncedBy(stages[j]) == Announcers(stages) + AnnouncedBy(g)
    decreases |stages|
  {
    hide AnnouncedBy;
    var m := |stages| - 1;
    if j == m {
      assert stages[j := g][..m] == stages[..m];
    } else {
      var init := stages[..m];
      assert stages[j := g][..m] == init[j := g] && init[j] == stages[j];
      AnnouncersChange(init, j, g);
      Exchange(Announcers(init[j := g]), Announcers(init), AnnouncedBy(stages[j]), AnnouncedBy(g), AnnouncedBy(stages[m]));
    }
  }

  lemma Exchange(a: multiset<int>, b: multiset<int>, x: multiset<int>, y: multiset<int>, more: multiset<int>)
    requires a + x == b + y
    ensures a + more + x == b + more + y
  {
    assert a + more + x == a + x + more;
    assert b + more + y == b + y + more;
  }

  lemma Cancel(a: multiset<int>, b: multiset<int>, c: multiset<int>)
    requires a + c == b + c
    ensures a == b
  {
    forall x
      ensures a[x] == b[x]
    {
      assert (a + c)[x] == (b + c)[x];
    }
  }

  lemma AnnouncersSame(stages: seq<Stage>, j: nat, g: Stage)
    requires j < |stages| && AnnouncedBy(g) == AnnouncedBy(stages[j])
    ensures Announcers(stages[j := g]) == Announcers(stages)
  {
    AnnouncersChange(stages, j, g);
    Cancel(Announcers(stages[j := g]), Announcers(stages), AnnouncedBy(g));
  }

  lemma StageTakesKeepsInv(n: int, tokens: nat, slaves: nat, s: Net, j: nat, item: Item, t: Net)
    requires Inv(n, tokens, slaves, s) && Enabled(n, s, StageTakes(j, item)) && t == Apply(n, s, StageTakes(j, item))
    ensures Inv(n, tokens, slaves, t)
  {
    hide ChannelOk, Stages, Channels, Announcers, NewPrime, OnlyChannels, StageOk, Divides, ChannelPrime, HandedOver, PrimeTsOut;
    StageTakesChannels(n, s, j, item, t);
    AnnouncersSame(s.stages, j, t.stages[j]);
    LoopKeepsHandOver(s.stages, j, t.stages[j]);
    StageTakesNewPrime(n, s, j, item, t);
  }

  /** A step inside the loop that does not touch prime_ts. */
  lemma LoopKeepsHandOver(stages: seq<Stage>, j: nat, g: Stage)
    requires j < |stages| && HandedOver(stages)
    requires g.nextPrime == stages[j].nextPrime && !stages[j].pc.TakePrimeTs? && !g.pc.TakePrimeTs?
    requires stages[j].pc.OutPrimeTs? <==> g.pc.OutPrimeTs?
    ensures HandedOver(stages[j := g]) && PrimeTsOut(stages[j := g]) == PrimeTsOut(stages)
  {
  }

  lemma StageTakesNewPrime(n: int, s: Net, j: nat, item: Item, t: Net)
    requires Stages(n, s) && NewPrime(s, ChannelPrime(s, |s.stages|)) && Enabled(n, s, StageTakes(j, item)) && t == Apply(n, s, StageTakes(j, item))
    ensures NewPrime(t, ChannelPrime(t, |t.stages|))
  {
    hide StageOk, NewInWork;
    AtLeastTwo(n, s.stages[j]);
    var q, there := ChannelPrime(s, |s.stages|), ChannelPrime(s, |s.stages|) != 0 && s.returning == multiset{} && s.spawning == multiset{};
    assert ChannelPrime(t, |t.stages|) == q;
    OtherItem(s.work, there, q, item);
  }

  lemma OtherItem(work: multiset<Item>, there: bool, q: int, item: Item)
    requires NewInWork(work, there, q) && item.1 != 0
    ensures NewInWork(work - multiset{item}, there, q) && NewInWork(work + multiset{item}, there, q)
  {
  }

  /** Only the last stage may not have found its prime. */
  lemma EarlierHaveFound(n: int, s: Net, i: nat)
    requires Stages(n, s) && i < |s.stages| - 1
    ensures Found(s.stages[i]) != 0 && !Starting(s.stages[i])
  {
    hide StageOk;
    AtLeastTwo(n, s.stages[i + 1]);
    assert Found(s.stages[i]) == ChannelPrime(s, i + 1);
    FoundIsLarger(n, s.stages[i]);
  }

  /** The item a stage's own step puts out. */
  function PutOutBy(g: Stage): multiset<Item> {
    match g.pc
    case OutPrime(x) => multiset{(x, 0, 0)}
    case OutNext(x) => multiset{(x, g.nextPrime, g.outcount)}
    case _ => multiset{}
  }

  lemma MoveEffect(n: int, s: Net, j: nat, t: Net)
    requires Enabled(n, s, StageMoves(j)) && t == Apply(n, s, StageMoves(j))
    ensures j < |s.stages| && s.stages[j].pc != Take && t.stages == s.stages[j := AfterMove(s.stages[j])]
    ensures t.fed == s.fed && t.printed == s.printed && t.waiting == s.waiting && t.idle == s.idle
    ensures t.returning == s.returning && t.spawning == s.spawning
    ensures t.work == s.work + PutOutBy(s.stages[j])
    ensures t.announced == s.announced + (if s.stages[j].pc.Announce? then multiset{s.stages[j].prime} else multiset{})
    ensures t.primeTs == s.primeTs + (if s.stages[j].pc.TakePrimeTs? then -1 else if s.stages[j].pc.OutPrimeTs? then 1 else 0)
    ensures t.workTs == s.workTs + (if s.stages[j].pc.TakeWorkTs? then -1 else 0)
    ensures s.stages[j].pc.TakePrimeTs? ==> s.primeTs > 0
  {
  }

  lemma MoveFields(g: Stage)
    requires g.pc != Take
    ensures var h := AfterMove(g);
      && h.prime == g.prime && h.count == g.count && h.outcount == g.outcount + (if g.pc.OutNext? then 1 else 0)
      && h.nextPrime == (if g.pc.OutPrimeTs? then g.pc.x else g.nextPrime)
      && !h.pc.TakePrimeTs? && (h.pc.OutPrimeTs? <==> g.pc.OutPrime?)
      && (Starting(h) <==> g.pc.TakePrimeTs? || g.pc.Announce?) && (h.pc.Announce? <==> g.pc.TakePrimeTs?)
  {
  }

  lemma MoveStages(n: int, s: Net, j: nat, t: Net)
    requires Stages(n, s) && Enabled(n, s, StageMoves(j)) && t == Apply(n, s, StageMoves(j))
    ensures Stages(n, t)
    ensures s.stages[j].pc.OutPrime? ==> j == |s.stages| - 1 && ChannelPrime(s, j + 1) == 0 && Sent(s, j + 1) == 0 && ChannelPrime(t, j + 1) == s.stages[j].pc.x > s.stages[j].prime
    ensures forall i: nat :: i <= |s.stages| && !(i == j + 1 && s.stages[j].pc.OutPrime?) ==> ChannelPrime(t, i) == ChannelPrime(s, i)
    ensures forall i: nat :: i <= |s.stages| ==> Sent(t, i) == Sent(s, i) + (if i == j + 1 && s.stages[j].pc.OutNext? then 1 else 0)
    ensures forall i: nat :: i <= |s.stages| ==> Taken(t, i) == Taken(s, i)
  {
    hide StageOk, Found, Apply, Enabled, AfterMove, PutOutBy;
    MoveEffect(n, s, j, t);
    var m, g := |s.stages|, s.stages[j];
    MoveFields(g);
    MoveIsOk(n, g);
    if j < m - 1 {
      EarlierHaveFound(n, s, j);
    }
    assert forall i: nat :: i < m ==> t.stages[i].prime == s.stages[i].prime && t.stages[i].count == s.stages[i].count;
    assert forall i: nat :: i < m && i != j ==> t.stages[i] == s.stages[i];
  }

  lemma QuietChannels(n: int, s: Net, j: nat, t: Net)
    requires Stages(n, s) && Channels(n, s) && OnlyChannels(s) && Enabled(n, s, StageMoves(j)) && t == Apply(n, s, StageMoves(j))
    requires !s.stages[j].pc.OutPrime? && !s.stages[j].pc.OutNext?
    ensures Stages(n, t) && Channels(n, t) && OnlyChannels(t)
  {
    hide ChannelOk, Stages, ChannelPrime, Taken, Sent;
    MoveStages(n, s, j, t);
    StepOnly(s, t);
  }

  lemma OutPrimeChannels(n: int, s: Net, j: nat, t: Net)
    requires Stages(n, s) && Channels(n, s) && OnlyChannels(s) && Enabled(n, s, StageMoves(j)) && t == Apply(n, s, StageMoves(j))
    requires s.stages[j].pc.OutPrime?
    ensures Stages(n, t) && Channels(n, t) && OnlyChannels(t)
  {
    hide ChannelOk, Stages, StageOk;
    MoveStages(n, s, j, t);
    var x := s.stages[j].pc.x;
    forall i: nat | i <= |t.stages| && ChannelPrime(t, i) != 0
      ensures ChannelOk(n, t.work, ChannelPrime(t, i), Taken(t, i), Sent(t, i))
    {
      ChannelAtLeastTwo(n, t, i);
      if i == j + 1 {
        NotYetSent(n, s, x);
        EmptyChannelOk(n, s.work, x);
      }
      OtherChannelOk(n, s.work, (x, 0, 0), ChannelPrime(t, i), Taken(t, i), Sent(t, i));
    }
    StepOnly(s, t);
  }

  lemma ChannelAtLeastTwo(n: int, s: Net, i: nat)
    requires Stages(n, s) && i <= |s.stages| && ChannelPrime(s, i) != 0
    ensures ChannelPrime(s, i) >= 2
  {
    hide StageOk;
    if i > 0 {
      PrimesIncrease(n, s, i - 1, i);
    }
  }

  /** Nothing was sent yet under a prime larger than all stages'. */
  lemma NotYetSent(n: int, s: Net, x: int)
    requires Stages(n, s) && OnlyChannels(s) && s.stages != [] && x > s.stages[|s.stages| - 1].prime && ChannelPrime(s, |s.stages|) == 0
    ensures forall t :: t in s.work ==> t.1 != x
  {
    hide StageOk;
    var m := |s.stages|;
    AtLeastTwo(n, s.stages[m - 1]);
    forall j: nat | j <= m
      ensures ChannelPrime(s, j) != x
    {
      if j < m - 1 {
        PrimesIncrease(n, s, j, m - 1);
      }
    }
  }

  lemma OutNextChannels(n: int, s: Net, j: nat, t: Net)
    requires Stages(n, s) && Channels(n, s) && OnlyChannels(s) && Enabled(n, s, StageMoves(j)) && t == Apply(n, s, StageMoves(j))
    requires s.stages[j].pc.OutNext?
    ensures Stages(n, t) && Channels(n, t) && OnlyChannels(t)
    ensures s.stages[j].nextPrime != 0
  {
    hide ChannelOk, Stages, StageOk, Candidates;
    MoveStages(n, s, j, t);
    var g := s.stages[j];
    MoveOfStage(n, s, j);
    assert ChannelPrime(s, j + 1) == g.nextPrime && Sent(s, j + 1) == g.outcount;
    forall i: nat | i <= |t.stages| && ChannelPrime(t, i) != 0
      ensures ChannelOk(n, t.work, ChannelPrime(t, i), Taken(t, i), Sent(t, i))
    {
      if i == j + 1 {
        SendIsOk(n, s.work, g.nextPrime, Taken(s, i), g.outcount);
      } else {
        DistinctChannels(n, s, i, j + 1);
        OtherChannelOk(n, s.work, (g.pc.x, g.nextPrime, g.outcount), ChannelPrime(t, i), Taken(t, i), Sent(t, i));
      }
    }
    assert ChannelPrime(t, j + 1) == g.nextPrime;
    StepOnly(s, t);
  }

  lemma MoveOfStage(n: int, s: Net, j: nat)
    requires Stages(n, s) && j < |s.stages| && s.stages[j].pc.OutNext?
    ensures var g := s.stages[j];
      g.nextPrime != 0 && g.outcount < |Candidates(g.nextPrime, n)| && Candidates(g.nextPrime, n)[g.outcount] == g.pc.x
  {
    hide StageOk, Candidates;
    MoveIsOk(n, s.stages[j]);
  }

  lemma DistinctChannels(n: int, s: Net, i: nat, j: nat)
    requires Stages(n, s) && i <= |s.stages| && j <= |s.stages| && i != j && ChannelPrime(s, i) != 0 && ChannelPrime(s, j) != 0
    ensures ChannelPrime(s, i) != ChannelPrime(s, j)
  {
    hide StageOk;
    if i < j {
      PrimesIncrease(n, s, i, j);
    } else {
      PrimesIncrease(n, s, j, i);
    }
  }

  lemma StageFacts(n: int, g: Stage)
    requires StageOk(n, g)
    ensures g.pc.OutPrimeTs? || g.pc.OutPrime? || Starting(g) ==> g.nextPrime == 0
    ensures g.pc.OutPrimeTs? ==> g.pc.x != 0
    ensures g.pc.OutNext? ==> g.nextPrime != 0
  {
    if g.pc.OutPrimeTs? {
      Passes(g.prime, n, g.count);
      assert g.pc.x == Sifted(g.prime, Candidates(g.prime, n)[..g.count])[0];
    }
  }

  lemma MoveHandsOver(n: int, s: Net, j: nat, t: Net)
    requires Stages(n, s) && HandedOver(s.stages) && s.primeTs == PrimeTsOut(s.stages)
    requires Enabled(n, s, StageMoves(j)) && t == Apply(n, s, StageMoves(j))
    ensures HandedOver(t.stages) && t.primeTs == PrimeTsOut(t.stages)
  {
    hide StageOk, Apply, Enabled, AfterMove, PutOutBy;
    MoveEffect(n, s, j, t);
    var m, g := |s.stages|, s.stages[j];
    MoveFields(g);
    StageOkAt(n, s, j);
    StageOkAt(n, s, m - 1);
    StageFacts(n, g);
    StageFacts(n, s.stages[m - 1]);
    if j < m - 1 {
      EarlierHaveFound(n, s, j);
      hide Stages;
      EarlierHandsOver(s.stages, j, t.stages[j]);
    } else {
      hide Stages;
      LastHandsOver(s.stages, t.stages[j]);
    }
  }

  lemma StageOkAt(n: int, s: Net, j: nat)
    requires Stages(n, s) && j < |s.stages|
    ensures StageOk(n, s.stages[j])
  {
    hide StageOk;
  }

  /** Of the earlier stages only the one before the last may have prime_ts to return. */
  lemma EarlierHandsOver(stages: seq<Stage>, j: nat, h: Stage)
    requires j < |stages| - 1 && HandedOver(stages) && !Starting(stages[j]) && !h.pc.TakePrimeTs? && !h.pc.OutPrimeTs?
    requires stages[|stages| - 1].pc.TakePrimeTs? ==> stages[|stages| - 1].nextPrime == 0
    ensures HandedOver(stages[j := h])
    ensures PrimeTsOut(stages[j := h]) == PrimeTsOut(stages) + (if stages[j].pc.OutPrimeTs? then 1 else 0)
  {
  }

  /** The last stage takes and returns prime_ts. */
  lemma LastHandsOver(stages: seq<Stage>, h: Stage)
    requires stages != [] && HandedOver(stages)
    requires var g := stages[|stages| - 1];
      && (g.pc.TakePrimeTs? ==> PrimeTsOut(stages) == 1 && g.nextPrime == 0)
      && (g.pc.OutPrimeTs? ==> g.nextPrime == 0 && g.pc.x != 0)
      && !h.pc.TakePrimeTs? && h.nextPrime == (if g.pc.OutPrimeTs? then g.pc.x else g.nextPrime)
    ensures var g, stages' := stages[|stages| - 1], stages[|stages| - 1 := h];
      && HandedOver(stages')
      && PrimeTsOut(stages') == PrimeTsOut(stages) + (if g.pc.TakePrimeTs? then -1 else if g.pc.OutPrimeTs? then 1 else 0)
  {
  }

  lemma StartingMeans(g: Stage)
    ensures Starting(g) <==> g.pc.TakePrimeTs? || g.pc.Announce? || g.pc.TakeWorkTs?
  {
  }

  lemma LastAfterMove(s: Net, j: nat, t: Net)
    requires j < |s.stages| && s.stages[j].pc != Take && t.stages == s.stages[j := AfterMove(s.stages[j])]
    requires j < |s.stages| - 1 ==> !Starting(s.stages[j])
    requires Starting(AfterMove(s.stages[j])) <==> s.stages[j].pc.TakePrimeTs? || s.stages[j].pc.Announce?
    ensures LastStarting(t) <==> LastStarting(s) && !s.stages[j].pc.TakeWorkTs?
    ensures s.stages[j].pc.TakeWorkTs? ==> LastStarting(s)
  {
    hide AfterMove;
  }

  lemma MoveTokens(n: int, tokens: nat, slaves: nat, s: Net, j: nat, t: Net)
    requires Stages(n, s) && Tokens(tokens, slaves, s)
    requires Enabled(n, s, StageMoves(j)) && t == Apply(n, s, StageMoves(j))
    ensures Tokens(tokens, slaves, t)
  {
    hide StageOk, Apply, Enabled, AfterMove, PutOutBy, Stages;
    MoveEffect(n, s, j, t);
    MoveFields(s.stages[j]);
    assert j < |s.stages| - 1 ==> !Starting(s.stages[j]) by {
      if j < |s.stages| - 1 {
        EarlierHaveFound(n, s, j);
      }
    }
    hide Starting;
    StartingMeans(s.stages[j]);
    LastAfterMove(s, j, t);
  }

  lemma MoveAnnounces(n: int, s: Net, j: nat, t: Net)
    requires multiset(s.printed) + s.announced == Announcers(s.stages)
    requires Enabled(n, s, StageMoves(j)) && t == Apply(n, s, StageMoves(j))
    ensures multiset(t.printed) + t.announced == Announcers(t.stages)
  {
    hide Apply, Enabled, AfterMove, PutOutBy, Announcers;
    MoveEffect(n, s, j, t);
    var g := s.stages[j];
    MoveFields(g);
    if g.pc.Announce? {
      AnnouncersChange(s.stages, j, t.stages[j]);
      Shuffle(multiset(s.printed), s.announced, multiset{g.prime});
    } else {
      AnnouncersSame(s.stages, j, t.stages[j]);
    }
  }

  lemma Shuffle(a: multiset<int>, b: multiset<int>, c: multiset<int>)
    ensures a + (b + c) == a + b + c
  {
  }

  lemma MoveNewPrime(n: int, s: Net, j: nat, t: Net)
    requires Stages(n, s) && NewPrime(s, ChannelPrime(s, |s.stages|))
    requires Enabled(n, s, StageMoves(j)) && t == Apply(n, s, StageMoves(j))
    ensures NewPrime(t, ChannelPrime(t, |t.stages|))
  {
    hide StageOk, NewInWork, Stages, Apply, Enabled, AfterMove, ChannelPrime;
    MoveEffect(n, s, j, t);
    var g, q := s.stages[j], ChannelPrime(s, |s.stages|);
    MoveStages(n, s, j, t);
    var there := q != 0 && s.returning == multiset{} && s.spawning == multiset{};
    if g.pc.OutPrime? {
      StageAtLeastTwo(n, s, j);
      NewPutIn(s.work, g.pc.x);
    } else if g.pc.OutNext? {
      MoveOfStage(n, s, j);
      OtherItem(s.work, there, q, (g.pc.x, g.nextPrime, g.outcount));
    } else {
      assert t.work == s.work;
    }
  }

  lemma StageAtLeastTwo(n: int, s: Net, j: nat)
    requires Stages(n, s) && j < |s.stages|
    ensures s.stages[j].prime >= 2
  {
    hide StageOk;
    AtLeastTwo(n, s.stages[j]);
  }

  lemma NewPutIn(work: multiset<Item>, x: int)
    requires NewInWork(work, false, 0)
    ensures NewInWork(work + multiset{(x, 0, 0)}, true, x)
  {
  }

  lemma StageMovesKeepsInv(n: int, tokens: nat, slaves: nat, s: Net, j: nat, t: Net)
    requires Inv(n, tokens, slaves, s) && Enabled(n, s, StageMoves(j)) && t == Apply(n, s, StageMoves(j))
    ensures Inv(n, tokens, slaves, t)
  {
    hide Stages, Channels, Announcers, NewPrime, OnlyChannels, StageOk, ChannelPrime, HandedOver, PrimeTsOut, Tokens;
    MoveHandsOver(n, s, j, t);
    MoveTokens(n, tokens, slaves, s, j, t);
    MoveAnnounces(n, s, j, t);
    MoveNewPrime(n, s, j, t);
    if s.stages[j].pc.OutPrime? {
      OutPrimeChannels(n, s, j, t);
    } else if s.stages[j].pc.OutNext? {
      OutNextChannels(n, s, j, t);
    } else {
      QuietChannels(n, s, j, t);
    }
  }

  lemma StepKeepsInv(n: int, tokens: nat, slaves: nat, s: Net, t: Net)
    requires Inv(n, tokens, slaves, s) && Step(n, s, t)
    ensures Inv(n, tokens, slaves, t)
  {
    hide Inv, Apply, Enabled;
    var e :| Enabled(n, s, e) && t == Apply(n, s, e);
    match e
    case Feed => FeedKeepsInv(n, tokens, slaves, s, t);
    case Print(x) => PrintKeepsInv(n, tokens, slaves, s, x, t);
    case SlaveStarts => SlaveStartsKeepsInv(n, tokens, slaves, s, t);
    case SlaveTakes(item) => SlaveTakesKeepsInv(n, tokens, slaves, s, item, t);
    case SlaveReturns(x) => SlaveReturnsKeepsInv(n, tokens, slaves, s, x, t);
    case SlaveSpawns(x) => SpawnKeepsInv(n, tokens, slaves, s, x, t);
    case StageTakes(j, item) => StageTakesKeepsInv(n, tokens, slaves, s, j, item, t);
    case StageMoves(j) => StageMovesKeepsInv(n, tokens, slaves, s, j, t);
  }

  lemma InitInv(n: int, tokens: nat, slaves: nat)
    requires n >= 3
    ensures Inv(n, tokens, slaves, Init(tokens, slaves))
  {
  }

  lemma {:induction false} RunInv(n: int, tokens: nat, slaves: nat, run: seq<Net>, i: nat)
    requires n >= 3 && Run(n, run) && run[0] == Init(tokens, slaves) && i < |run|
    ensures Inv(n, tokens, slaves, run[i])
  {
    hide Inv, Step;
    if i == 0 {
      InitInv(n, tokens, slaves);
    } else {
      RunInv(n, tokens, slaves, run, i - 1);
      StepKeepsInv(n, tokens, slaves, run[i - 1], run[i]);
    }
  }
}
