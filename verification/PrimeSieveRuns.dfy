/** Every run of the prime sieve ends. */
module PrimeSieveRuns {
  import opened SieveNumbers
  import opened PrimeSieve
  import opened PrimeSieveSteps
  import opened PrimeSieveResult

  /** The operations a stage has behind it. */
  function StageProgress(g: Stage): int {
    match g.pc
    case TakePrimeTs => 0
    case Announce => 1
    case TakeWorkTs => 2
    case Take => 3 + 3 * g.count
    case OutPrime(_) => 1 + 3 * g.count
    case OutPrimeTs(_) => 2 + 3 * g.count
    case OutNext(_) => 2 + 3 * g.count
  }

  function StagesProgress(stages: seq<Stage>): int {
    if stages == [] then 0 else StagesProgress(stages[..|stages| - 1]) + 3 + StageProgress(stages[|stages| - 1])
  }

  function Progress(s: Net): int {
    s.fed + |s.printed| + s.idle + 2 * |s.returning| + 3 * |s.spawning| + StagesProgress(s.stages)
  }

  lemma {:induction false} ProgressOfOne(stages: seq<Stage>, j: nat, g: Stage)
    requires j < |stages|
    ensures StagesProgress(stages[j := g]) == StagesProgress(stages) - StageProgress(stages[j]) + StageProgress(g)
  {
    hide StageProgress;
    var m := |stages| - 1;
    var init := stages[..m];
    if j == m {
      assert stages[j := g][..m] == init;
    } else {
      assert stages[j := g][..m] == init[j := g] && init[j] == stages[j];
      ProgressOfOne(init, j, g);
    }
  }

  lemma StepProgresses(n: int, s: Net, t: Net)
    requires Step(n, s, t)
    ensures Progress(t) > Progress(s)
  {
    hide StagesProgress, StageProgress;
    var e :| Enabled(n, s, e) && t == Apply(n, s, e);
    if e.SlaveSpawns? {
      SpawnProgresses(s.stages, e.x);
    } else if e.StageTakes? {
      ProgressOfOne(s.stages, e.j, t.stages[e.j]);
      TakeProgresses(s.stages[e.j], e.item.0);
    } else if e.StageMoves? {
      MoveProgresses(n, s, e.j, t);
    }
  }

  lemma TakeProgresses(g: Stage, x: int)
    requires g.pc == Take
    ensures StageProgress(AfterTake(g, x)) > StageProgress(g)
  {
    hide Divides;
  }

  lemma MoveProgresses(n: int, s: Net, j: nat, t: Net)
    requires Enabled(n, s, StageMoves(j)) && t == Apply(n, s, StageMoves(j))
    ensures Progress(t) > Progress(s)
  {
    hide Apply, Enabled, StagesProgress, StageProgress, AfterMove;
    MoveEffect(n, s, j, t);
    ProgressOfOne(s.stages, j, t.stages[j]);
    StageMoveProgresses(s.stages[j]);
  }

  lemma StageMoveProgresses(g: Stage)
    requires g.pc != Take
    ensures StageProgress(AfterMove(g)) > StageProgress(g)
  {
  }

  lemma SpawnProgresses(stages: seq<Stage>, x: int)
    ensures StagesProgress(stages + [Stage(x, TakePrimeTs, 0, 0, 0)]) == StagesProgress(stages) + 3
  {
    var more := stages + [Stage(x, TakePrimeTs, 0, 0, 0)];
    assert more[..|more| - 1] == stages;
  }

  lemma {:induction false} StagesProgressBounded(n: int, stages: seq<Stage>)
    requires n >= 3 && forall j: nat :: j < |stages| ==> stages[j].count <= n
    ensures StagesProgress(stages) <= |stages| * (3 * n + 6)
  {
    if stages != [] {
      var init, last := stages[..|stages| - 1], stages[|stages| - 1];
      StagesProgressBounded(n, init);
      assert StageProgress(last) <= 3 * n + 3;
      assert |stages| * (3 * n + 6) == |init| * (3 * n + 6) + (3 * n + 6);
    }
  }

  lemma {:induction false} CandidatesBelow(p: int, n: int)
    requires p >= 2 && n >= 3
    ensures |Candidates(p, n)| <= n
    decreases n - p
  {
    if n > p + 1 {
      CandidatesBelow(p, n - 1);
    }
  }

  lemma {:induction false} FewStages(n: int, s: Net, j: nat)
    requires Stages(n, s) && j < |s.stages|
    ensures s.stages[j].prime >= j + 2
  {
    hide StageOk;
    StageAtLeastTwo(n, s, j);
    if j > 0 {
      FewStages(n, s, j - 1);
      StagePrimesIncrease(n, s, j - 1, j);
    }
  }

  lemma {:induction false} AnnouncersAtMost(stages: seq<Stage>)
    ensures |Announcers(stages)| <= |stages|
  {
    if stages != [] {
      AnnouncersAtMost(stages[..|stages| - 1]);
    }
  }

  lemma ProgressBounded(n: int, tokens: nat, slaves: nat, s: Net)
    requires n >= 3 && Inv(n, tokens, slaves, s)
    ensures Progress(s) <= 2 * n + 3 * slaves + n * (3 * n + 6)
  {
    hide Channels, OnlyChannels, NewPrime, HandedOver, PrimeTsOut, Announcers, StagesProgress, StageOk, ChannelPrime;
    var m := |s.stages|;
    if m > 0 {
      FewStages(n, s, m - 1);
      StageBelow(n, s, m - 1);
    }
    forall j: nat | j < m
      ensures s.stages[j].count <= n
    {
      CountFits(n, s, j);
    }
    AnnouncersAtMost(s.stages);
    assert |multiset(s.printed)| == |s.printed|;
    assert |multiset(s.printed) + s.announced| == |s.printed| + |s.announced|;
    StagesProgressBounded(n, s.stages);
    Times(m, n, 3 * n + 6);
  }

  lemma CountFits(n: int, s: Net, j: nat)
    requires Stages(n, s) && j < |s.stages| && n >= 3
    ensures s.stages[j].count <= n
  {
    StageOkAt(n, s, j);
    CandidatesBelow(s.stages[j].prime, n);
  }

  lemma Times(a: int, b: int, c: int)
    requires a <= b && c >= 0
    ensures a * c <= b * c
  {
  }

  lemma {:induction false} RunProgresses(n: int, run: seq<Net>, i: nat)
    requires Run(n, run) && i < |run|
    ensures Progress(run[i]) >= Progress(run[0]) + i
  {
    hide Step, Progress;
    if i > 0 {
      RunProgresses(n, run, i - 1);
      StepProgresses(n, run[i - 1], run[i]);
    }
  }

  /** No run is longer than a bound that depends on n and the number of slaves alone. */
  lemma RunsAreFinite(n: int, tokens: nat, slaves: nat, run: seq<Net>)
    requires n >= 3 && Run(n, run) && run[0] == Init(tokens, slaves)
    ensures |run| <= 2 * n + 3 * slaves + n * (3 * n + 6)
  {
    hide Inv;
    RunInv(n, tokens, slaves, run, |run| - 1);
    ProgressBounded(n, tokens, slaves, run[|run| - 1]);
    RunProgresses(n, run, |run| - 1);
  }
}
