/** What the prime sieve announces: primes only, and when nobody can move, all of them. */
module PrimeSieveResult {
  import opened SieveNumbers
  import opened PrimeSieve
  import opened PrimeSieveSteps

  // ---- Safety --------------------------------------------------------------------------------------

  lemma {:induction false} StagesArePrime(n: int, s: Net, j: nat)
    requires Stages(n, s) && j < |s.stages|
    ensures IsPrime(s.stages[j].prime)
  {
    hide StageOk, Gap, NoDivisorBelow;
    StageAtLeastTwo(n, s, j);
    if j == 0 {
      TwoIsPrime();
    } else {
      var g := s.stages[j - 1];
      StageAtLeastTwo(n, s, j - 1);
      StageOkAt(n, s, j - 1);
      FoundIsLarger(n, g);
      NextPrime(g.prime, Found(g));
    }
  }

  lemma TwoIsPrime()
    ensures IsPrime(2)
  {
  }

  lemma {:induction false} AnnouncersAreStages(stages: seq<Stage>, x: int) returns (j: nat)
    requires x in Announcers(stages)
    ensures j < |stages| && stages[j].prime == x
  {
    var m := |stages| - 1;
    if x in AnnouncedBy(stages[m]) {
      j := m;
    } else {
      j := AnnouncersAreStages(stages[..m], x);
    }
  }

  /** Every number announced in any run is a prime. */
  lemma OnlyPrimesAreAnnounced(n: int, tokens: nat, slaves: nat, run: seq<Net>, i: nat, x: int)
    requires n >= 3 && Run(n, run) && run[0] == Init(tokens, slaves) && i < |run|
    requires x in run[i].announced || x in run[i].printed
    ensures IsPrime(x)
  {
    hide Run, Stages, Channels, OnlyChannels, NewPrime, HandedOver, PrimeTsOut, Announcers, Tokens;
    RunInv(n, tokens, slaves, run, i);
    assert x in multiset(run[i].printed) + run[i].announced;
    var j := AnnouncersAreStages(run[i].stages, x);
    StagesArePrime(n, run[i], j);
  }

  /** In every run each stage takes, one after the other, exactly the numbers above its prime that nothing
      smaller divides. */
  lemma StagesTakeInOrder(n: int, tokens: nat, slaves: nat, run: seq<Net>, i: nat, j: nat, item: Item)
    requires n >= 3 && Run(n, run) && run[0] == Init(tokens, slaves) && i < |run|
    requires Enabled(n, run[i], StageTakes(j, item))
    ensures var g := run[i].stages[j]; IsPrime(g.prime) && g.count < |Candidates(g.prime, n)| && item.0 == Candidates(g.prime, n)[g.count]
  {
    hide Run, Stages, Channels, OnlyChannels, NewPrime, HandedOver, PrimeTsOut, Announcers, Tokens;
    RunInv(n, tokens, slaves, run, i);
    StageReceives(n, run[i], j, item);
    StagesArePrime(n, run[i], j);
  }

  // ---- When nobody can move ------------------------------------------------------------------------

  /** With a token for every slave, nothing is left undone by master and slaves, and every stage waits for
      a number. */
  lemma StuckOutside(n: int, tokens: nat, slaves: nat, s: Net)
    requires Inv(n, tokens, slaves, s) && Stuck(n, s) && 1 <= slaves <= tokens
    ensures s.fed == n && s.announced == multiset{} && ChannelPrime(s, |s.stages|) == 0
    ensures s.waiting > 0 ==> s.workTs == 0
    ensures |s.returning| + |s.spawning| == 0
  {
    hide Stages, Channels, OnlyChannels, HandedOver, PrimeTsOut, Announcers, ChannelPrime;
    var q := ChannelPrime(s, |s.stages|);
    assert !Enabled(n, s, Feed);
    assert !Enabled(n, s, SlaveStarts);
    assert s.fed >= n;
    forall x
      ensures x !in s.announced && x !in s.returning && x !in s.spawning
    {
      assert !Enabled(n, s, Print(x)) && !Enabled(n, s, SlaveReturns(x)) && !Enabled(n, s, SlaveSpawns(x));
    }
    assert s.announced == s.returning == s.spawning == multiset{};
    assert s.idle > 0;
    assert !Enabled(n, s, SlaveTakes((q, 0, 0)));
    assert s.work[(q, 0, 0)] == 0;
  }

  /** prime_ts is out when the last stage waits for it and the one before is in its loop. */
  lemma StuckStages(n: int, tokens: nat, slaves: nat, s: Net, j: nat)
    requires Inv(n, tokens, slaves, s) && Stuck(n, s) && 1 <= slaves <= tokens && j < |s.stages|
    ensures s.stages[j].pc == Take
  {
    hide Channels, OnlyChannels, NewPrime, Announcers, StageOk;
    var m := |s.stages|;
    StuckOutside(n, tokens, slaves, s);
    assert !Enabled(n, s, StageMoves(j));
    if j < m - 1 {
      EarlierHaveFound(n, s, j);
    } else {
      if m >= 2 {
        assert !Enabled(n, s, StageMoves(m - 2));
      }
      StageOkAt(n, s, m - 1);
      StageFacts(n, s.stages[m - 1]);
    }
  }

  lemma StuckChannel(n: int, s: Net, j: nat)
    requires Stages(n, s) && Channels(n, s) && Stuck(n, s) && j < |s.stages| && s.stages[j].pc == Take
    ensures Taken(s, j) == Sent(s, j)
  {
    hide StageOk, Candidates;
    StageAtLeastTwo(n, s, j);
    var g := s.stages[j];
    var p, k := g.prime, g.count;
    assert ChannelOk(n, s.work, p, k, Sent(s, j));
    ChannelHolds(n, s.work, p, k, Sent(s, j));
    assert k < Sent(s, j) ==> !Enabled(n, s, StageTakes(j, (Candidates(p, n)[k], p, k)));
  }

  lemma ChannelHolds(n: int, work: multiset<Item>, p: int, taken: nat, sent: int)
    requires ChannelOk(n, work, p, taken, sent)
    ensures taken <= sent <= |Candidates(p, n)|
    ensures taken < sent ==> (Candidates(p, n)[taken], p, taken) in work
  {
    if taken < sent {
      var x := Candidates(p, n)[taken];
      assert work[(x, p, taken)] == 1;
    }
  }

  lemma PassedAll(n: int, g: Stage)
    requires StageOk(n, g) && g.pc == Take && g.count == |Candidates(g.prime, n)|
    ensures g.nextPrime != 0 ==> g.outcount == |Candidates(g.nextPrime, n)|
    ensures g.nextPrime == 0 ==> Gap(g.prime, n)
  {
    SiftedCandidates(g.prime, n);
    assert Candidates(g.prime, n)[..g.count] == Candidates(g.prime, n);
    hide Sifted, Gap, NoDivisorBelow, Candidates;
  }

  /** Every stage has taken all the numbers meant for it. */
  lemma {:induction false} StuckTookAll(n: int, tokens: nat, slaves: nat, s: Net, j: nat)
    requires Inv(n, tokens, slaves, s) && Stuck(n, s) && 1 <= slaves <= tokens && j < |s.stages|
    ensures s.stages[j].pc == Take && s.stages[j].count == |Candidates(s.stages[j].prime, n)|
  {
    hide OnlyChannels, NewPrime, Announcers, StageOk, Stuck, HandedOver, PrimeTsOut, ChannelOk, Candidates, Tokens;
    StuckOutside(n, tokens, slaves, s);
    StuckStages(n, tokens, slaves, s, j);
    StuckChannel(n, s, j);
    StageAtLeastTwo(n, s, j);
    if j > 0 {
      StuckTookAll(n, tokens, slaves, s, j - 1);
      PassedAll(n, s.stages[j - 1]);
    } else if n > 3 {
      FirstCandidates(n, 0);
    } else {
      NoCandidates();
    }
  }

  lemma NoCandidates()
    ensures Candidates(2, 3) == []
  {
  }

  /** Every prime up to that of stage j has a stage. */
  lemma {:induction false} PrimesHaveStages(n: int, s: Net, j: nat, r: int) returns (i: nat)
    requires Stages(n, s) && j < |s.stages| && IsPrime(r) && r <= s.stages[j].prime
    ensures i <= j && s.stages[i].prime == r
  {
    hide StageOk, IsPrime, Gap, NoDivisorBelow;
    i := j;
    if r < s.stages[j].prime {
      if j > 0 {
        var g := s.stages[j - 1];
        StageAtLeastTwo(n, s, j);
        StageAtLeastTwo(n, s, j - 1);
        StageOkAt(n, s, j - 1);
        FoundIsLarger(n, g);
        NextPrime(g.prime, Found(g));
        i := PrimesHaveStages(n, s, j - 1, r);
      } else {
        PrimeIsTwoOrMore(r);
      }
    }
  }

  lemma PrimeIsTwoOrMore(r: int)
    requires IsPrime(r)
    ensures r >= 2
  {
  }

  /** Each of the first k stages has announced its prime once. */
  lemma {:induction false} AnnouncedOnce(n: int, s: Net, k: nat, i: nat)
    requires Stages(n, s) && i < k <= |s.stages| && forall j: nat :: j < k ==> s.stages[j].pc == Take
    ensures Announcers(s.stages[..k])[s.stages[i].prime] == 1
  {
    hide Stages, Announcers;
    AnnouncersNext(s.stages, k);
    if i < k - 1 {
      AnnouncedOnce(n, s, k - 1, i);
      StagePrimesIncrease(n, s, i, k - 1);
    } else {
      NotAnnouncedBefore(n, s, k - 1);
    }
  }

  lemma AnnouncersNext(stages: seq<Stage>, k: nat)
    requires 0 < k <= |stages| && stages[k - 1].pc == Take
    ensures Announcers(stages[..k]) == Announcers(stages[..k - 1]) + multiset{stages[k - 1].prime}
  {
    assert stages[..k][..k - 1] == stages[..k - 1] && stages[..k][k - 1] == stages[k - 1];
  }

  lemma NotAnnouncedBefore(n: int, s: Net, k: nat)
    requires Stages(n, s) && k < |s.stages|
    ensures s.stages[k].prime !in Announcers(s.stages[..k])
  {
    hide Stages, Announcers;
    var x := s.stages[k].prime;
    if x in Announcers(s.stages[..k]) {
      var i := AnnouncersAreStages(s.stages[..k], x);
      StagePrimesIncrease(n, s, i, k);
    }
  }

  lemma StagePrimesIncrease(n: int, s: Net, i: nat, j: nat)
    requires Stages(n, s) && i < j < |s.stages|
    ensures s.stages[i].prime < s.stages[j].prime
  {
    hide StageOk;
    StageAtLeastTwo(n, s, j);
    PrimesIncrease(n, s, i, j);
  }

  ghost predicate PrintedThePrimes(n: int, s: Net) {
    forall x :: multiset(s.printed)[x] == if IsPrime(x) && x < n then 1 else 0
  }

  lemma StagesAreThePrimes(n: int, tokens: nat, slaves: nat, s: Net, x: int)
    requires Inv(n, tokens, slaves, s) && Stuck(n, s) && 1 <= slaves <= tokens && n >= 3
    ensures IsPrime(x) && x < n <==> exists i: nat :: i < |s.stages| && s.stages[i].prime == x
  {
    hide Channels, OnlyChannels, NewPrime, Announcers, StageOk, Stuck, HandedOver, PrimeTsOut, ChannelOk, Candidates, Tokens, IsPrime, Gap;
    var m := |s.stages|;
    StuckOutside(n, tokens, slaves, s);
    StuckTookAll(n, tokens, slaves, s, m - 1);
    var p := s.stages[m - 1].prime;
    StageOkAt(n, s, m - 1);
    PassedAll(n, s.stages[m - 1]);
    StageAtLeastTwo(n, s, m - 1);
    GapHasNoPrimes(p, n);
    if IsPrime(x) && x < n {
      var i := PrimesHaveStages(n, s, m - 1, x);
    }
    forall i: nat | i < m
      ensures IsPrime(s.stages[i].prime) && s.stages[i].prime < n
    {
      StagesArePrime(n, s, i);
      StageBelow(n, s, i);
    }
  }

  lemma StageBelow(n: int, s: Net, i: nat)
    requires Stages(n, s) && i < |s.stages| && n >= 3
    ensures s.stages[i].prime < n
  {
    hide StageOk, Gap, NoDivisorBelow, Candidates;
    StageAtLeastTwo(n, s, i);
    if i > 0 {
      FoundIsLarger(n, s.stages[i - 1]);
    }
  }

  /** When nobody can move, the master has printed every prime below n, once each, and nothing else. */
  lemma StuckPrintedThePrimes(n: int, tokens: nat, slaves: nat, s: Net)
    requires Inv(n, tokens, slaves, s) && Stuck(n, s) && 1 <= slaves <= tokens && n >= 3
    ensures PrintedThePrimes(n, s)
  {
    hide Channels, OnlyChannels, NewPrime, Announcers, StageOk, Stuck, HandedOver, PrimeTsOut, Tokens, IsPrime;
    StuckOutside(n, tokens, slaves, s);
    var m := |s.stages|;
    forall i: nat | i < m
      ensures s.stages[i].pc == Take
    {
      StuckStages(n, tokens, slaves, s, i);
    }
    assert s.stages[..m] == s.stages;
    assert multiset(s.printed) == Announcers(s.stages);
    forall x
      ensures multiset(s.printed)[x] == if IsPrime(x) && x < n then 1 else 0
    {
      StagesAreThePrimes(n, tokens, slaves, s, x);
      if i: nat :| i < m && s.stages[i].prime == x {
        AnnouncedOnce(n, s, m, i);
      } else if x in Announcers(s.stages) {
        var i := AnnouncersAreStages(s.stages, x);
      }
    }
  }

  /** The result of every run that ends. */
  lemma EndsWithThePrimes(n: int, tokens: nat, slaves: nat, run: seq<Net>)
    requires n >= 3 && Run(n, run) && run[0] == Init(tokens, slaves) && Stuck(n, run[|run| - 1])
    requires 1 <= slaves <= tokens
    ensures PrintedThePrimes(n, run[|run| - 1])
  {
    RunInv(n, tokens, slaves, run, |run| - 1);
    StuckPrintedThePrimes(n, tokens, slaves, run[|run| - 1]);
  }
}
