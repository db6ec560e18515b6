/** How the prime sieve depends on the number of slaves. */
module PrimeSieveTokens {
  import opened SieveNumbers
  import opened PrimeSieve
  import opened PrimeSieveResult

  ghost predicate Leads(n: int, s: Net, t: Net) {
    exists run :: Run(n, run) && run[0] == s && run[|run| - 1] == t
  }

  lemma LeadsStep(n: int, s: Net, t: Net, e: Event)
    requires Leads(n, s, t) && Enabled(n, t, e)
    ensures Leads(n, s, Apply(n, t, e))
  {
    hide Apply, Enabled;
    var run :| Run(n, run) && run[0] == s && run[|run| - 1] == t;
    var u := Apply(n, t, e);
    var longer := run + [u];
    assert Step(n, t, u);
    assert Run(n, longer);
    assert longer[0] == s && longer[|longer| - 1] == u;
  }

  /** What the master has put out when it is about to feed k. */
  function FedItems(k: int): multiset<Item> {
    if k <= 2 then multiset{} else FedItems(k - 1) + multiset{Fed(k - 1)}
  }

  lemma {:induction false} FedItemsTags(k: int)
    ensures forall t :: t in FedItems(k) ==> t == (2, 0, 0) || t.1 == 2
    ensures FedItems(k)[(2, 0, 0)] == if k >= 3 then 1 else 0
  {
    if k >= 3 {
      FedItemsTags(k - 1);
    }
  }

  lemma {:induction false} CanFeed(n: int, tokens: nat, slaves: nat, k: int)
    requires 2 <= k <= n
    ensures Leads(n, Init(tokens, slaves), Init(tokens, slaves).(fed := k, work := FedItems(k)))
  {
    var s := Init(tokens, slaves);
    if k == 2 {
      assert Run(n, [s]);
      assert Leads(n, s, [s][0]);
    } else {
      CanFeed(n, tokens, slaves, k - 1);
      LeadsStep(n, s, s.(fed := k - 1, work := FedItems(k - 1)), Feed);
    }
  }

  lemma {:induction false} CanStart(n: int, tokens: nat, slaves: nat, k: nat)
    requires n >= 3 && k <= tokens && k <= slaves
    ensures Leads(n, Init(tokens, slaves), Init(tokens, slaves).(fed := n, work := FedItems(n), workTs := tokens - k, waiting := slaves - k, idle := k))
  {
    if k == 0 {
      CanFeed(n, tokens, slaves, n);
    } else {
      CanStart(n, tokens, slaves, k - 1);
      LeadsStep(n, Init(tokens, slaves), Init(tokens, slaves).(fed := n, work := FedItems(n), workTs := tokens - (k - 1), waiting := slaves - (k - 1), idle := k - 1), SlaveStarts);
    }
  }

  /** Without slaves, or without a token for the first of them, nothing is ever printed. */
  lemma NothingPrinted(n: int, tokens: nat, slaves: nat) returns (t: Net)
    requires n >= 3 && (slaves == 0 || tokens == 0)
    ensures Leads(n, Init(tokens, slaves), t) && Stuck(n, t) && !PrintedThePrimes(n, t)
  {
    t := Init(tokens, slaves).(fed := n, work := FedItems(n));
    CanFeed(n, tokens, slaves, n);
    TwoIsPrime();
    assert multiset(t.printed)[2] == 0;
  }

  lemma ThreeIsPrime()
    ensures IsPrime(3)
  {
  }

  /** The token for the first stage goes to a late slave. */
  lemma TokenTaken(n: int, tokens: nat, slaves: nat) returns (t: Net)
    requires n >= 4 && 1 <= tokens < slaves
    ensures Leads(n, Init(tokens, slaves), t) && t.fed == n && t.work == FedItems(n) - multiset{(2, 0, 0)} && t.workTs == 0 && t.primeTs == 1
    ensures t.printed == [] && t.announced == t.returning == t.spawning == multiset{} && t.stages == [Stage(2, TakePrimeTs, 0, 0, 0)]
  {
    hide Leads, Apply, Enabled;
    var s := Init(tokens, slaves);
    var t0 := s.(fed := n, work := FedItems(n), workTs := 0, waiting := slaves - tokens, idle := tokens);
    CanStart(n, tokens, slaves, tokens);
    FedItemsTags(n);
    TakenByLate(n, tokens, slaves, t0);
    var t1 := t0.(work := FedItems(n) - multiset{(2, 0, 0)}, idle := tokens - 1, returning := multiset{2});
    LeadsStep(n, s, t0, SlaveTakes((2, 0, 0)));
    LeadsStep(n, s, t1, SlaveReturns(2));
    var t2 := t1.(workTs := 1, returning := multiset{}, spawning := multiset{2});
    LeadsStep(n, s, t2, SlaveStarts);
    var t3 := t2.(workTs := 0, waiting := slaves - tokens - 1, idle := tokens);
    LeadsStep(n, s, t3, SlaveSpawns(2));
    t := t3.(spawning := multiset{}, idle := tokens + 1, stages := [Stage(2, TakePrimeTs, 0, 0, 0)]);
  }

  lemma TakenByLate(n: int, tokens: nat, slaves: nat, t0: Net)
    requires 1 <= tokens < slaves && (2, 0, 0) in t0.work
    requires t0 == Init(tokens, slaves).(fed := n, work := t0.work, workTs := 0, waiting := slaves - tokens, idle := tokens)
    ensures var t1 := t0.(work := t0.work - multiset{(2, 0, 0)}, idle := tokens - 1, returning := multiset{2});
      && Enabled(n, t0, SlaveTakes((2, 0, 0))) && Apply(n, t0, SlaveTakes((2, 0, 0))) == t1
      && var t2 := t1.(workTs := 1, returning := multiset{}, spawning := multiset{2});
      && Enabled(n, t1, SlaveReturns(2)) && Apply(n, t1, SlaveReturns(2)) == t2
      && var t3 := t2.(workTs := 0, waiting := slaves - tokens - 1, idle := tokens);
      && Enabled(n, t2, SlaveStarts) && Apply(n, t2, SlaveStarts) == t3
      && var t4 := t3.(spawning := multiset{}, idle := tokens + 1, stages := [Stage(2, TakePrimeTs, 0, 0, 0)]);
      && Enabled(n, t3, SlaveSpawns(2)) && Apply(n, t3, SlaveSpawns(2)) == t4
  {
    assert t0.returning + multiset{2} == multiset{2};
    assert multiset{2} - multiset{2} == multiset{};
    assert t0.spawning + multiset{2} == multiset{2};
  }

  /** With more slaves than tokens, a late slave can start on the token meant for the first stage. */
  lemma OnlyTwoPrinted(n: int, tokens: nat, slaves: nat) returns (t: Net)
    requires n >= 4 && 1 <= tokens < slaves
    ensures Leads(n, Init(tokens, slaves), t) && Stuck(n, t) && !PrintedThePrimes(n, t)
  {
    hide Leads, Apply, Enabled;
    var s := Init(tokens, slaves);
    var t4 := TokenTaken(n, tokens, slaves);
    FirstStageAnnounces(n, t4);
    LeadsStep(n, s, t4, StageMoves(0));
    var t5 := t4.(primeTs := 0, stages := [Stage(2, Announce, 0, 0, 0)]);
    LeadsStep(n, s, t5, StageMoves(0));
    var t6 := t5.(announced := multiset{2}, stages := [Stage(2, TakeWorkTs, 0, 0, 0)]);
    LeadsStep(n, s, t6, Print(2));
    t := t6.(announced := multiset{}, printed := [2]);
    FedItemsTags(n);
    NoMoreMoves(n, t);
    ThreeIsPrime();
    assert multiset(t.printed)[3] == 0;
  }

  lemma FirstStageAnnounces(n: int, t4: Net)
    requires t4.fed == n && t4.primeTs == 1 && t4.stages == [Stage(2, TakePrimeTs, 0, 0, 0)] && t4.announced == multiset{} && t4.printed == []
    ensures var t5 := t4.(primeTs := 0, stages := [Stage(2, Announce, 0, 0, 0)]);
      && Enabled(n, t4, StageMoves(0)) && Apply(n, t4, StageMoves(0)) == t5
      && var t6 := t5.(announced := multiset{2}, stages := [Stage(2, TakeWorkTs, 0, 0, 0)]);
      && Enabled(n, t5, StageMoves(0)) && Apply(n, t5, StageMoves(0)) == t6
      && var t7 := t6.(announced := multiset{}, printed := [2]);
      && Enabled(n, t6, Print(2)) && Apply(n, t6, Print(2)) == t7
  {
    assert multiset{} + multiset{2} == multiset{2};
    assert multiset{2} - multiset{2} == multiset{};
  }

  lemma NoMoreMoves(n: int, t: Net)
    requires t.fed == n && t.workTs == 0 && t.announced == t.returning == t.spawning == multiset{}
    requires t.stages == [Stage(2, TakeWorkTs, 0, 0, 0)] && forall i :: i in t.work ==> i.1 == 2
    ensures Stuck(n, t)
  {
  }

  /** The sieve prints the primes below n in every run that ends, exactly if there is at least one slave
      and the master was told of at least as many slaves as there are. */
  lemma WorksExactlyWithEnoughTokens(n: int, tokens: nat, slaves: nat)
    requires n >= 4
    ensures (forall t :: Leads(n, Init(tokens, slaves), t) && Stuck(n, t) ==> PrintedThePrimes(n, t)) <==> 1 <= slaves <= tokens
  {
    hide Stuck, PrintedThePrimes, Step;
    if 1 <= slaves <= tokens {
      forall t | Leads(n, Init(tokens, slaves), t) && Stuck(n, t)
        ensures PrintedThePrimes(n, t)
      {
        var run :| Run(n, run) && run[0] == Init(tokens, slaves) && run[|run| - 1] == t;
        EndsWithThePrimes(n, tokens, slaves, run);
      }
    } else if 1 <= tokens < slaves {
      var t := OnlyTwoPrinted(n, tokens, slaves);
    } else {
      var t := NothingPrinted(n, tokens, slaves);
    }
  }
}
