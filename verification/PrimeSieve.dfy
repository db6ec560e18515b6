/** The distributed prime sieve (linda/examples/case_studies/primesieve): a master that feeds numbers and
    prints primes, slaves that start a stage for each new prime, and the stages, which hand numbers on
    through one tuplespace under sequence numbers.

    Each tuple operation is one step. _inp answers None only when nothing can move, so it ends a run and is
    no step of one. */
module PrimeSieve {
  import opened SieveNumbers

  /** (number, prime, sequence number); a new prime is put out as (prime, 0, 0). */
  type Item = (int, int, int)

  /** Where a stage stands in prime_sieve.py. */
  datatype Pc = TakePrimeTs | Announce | TakeWorkTs | Take | OutPrime(x: int) | OutPrimeTs(x: int) | OutNext(x: int)

  datatype Stage = Stage(prime: int, pc: Pc, nextPrime: int, count: nat, outcount: nat)

  /** fed is the number the master feeds next; primeTs and workTs count the tuples that hand out the two
      tuplespaces; slaves are waiting to start, idle, or on their way with a new prime. */
  datatype Net = Net(
    fed: int, work: multiset<Item>, primeTs: nat, workTs: nat, announced: multiset<int>, printed: seq<int>,
    waiting: nat, idle: nat, returning: multiset<int>, spawning: multiset<int>, stages: seq<Stage>)

  datatype Event =
    | Feed | Print(x: int)
    | SlaveStarts | SlaveTakes(item: Item) | SlaveReturns(x: int) | SlaveSpawns(x: int)
    | StageTakes(j: nat, item: Item) | StageMoves(j: nat)

  function Init(tokens: nat, slaves: nat): Net {
    Net(2, multiset{}, 1, tokens, multiset{}, [], slaves, 0, multiset{}, multiset{}, [])
  }

  function Fed(k: int): Item {
    if k == 2 then (2, 0, 0) else (k, 2, k - 3)
  }

  predicate Enabled(n: int, s: Net, e: Event) {
    match e
    case Feed => s.fed < n
    case Print(x) => s.fed >= n && x in s.announced
    case SlaveStarts => s.waiting > 0 && s.workTs > 0
    case SlaveTakes(item) => s.idle > 0 && item in s.work && item.1 == 0
    case SlaveReturns(x) => x in s.returning
    case SlaveSpawns(x) => x in s.spawning
    case StageTakes(j, item) =>
      j < |s.stages| && s.stages[j].pc == Take && item in s.work && item.1 == s.stages[j].prime && item.2 == s.stages[j].count
    case StageMoves(j) =>
      j < |s.stages| &&
      match s.stages[j].pc
      case TakePrimeTs => s.primeTs > 0
      case TakeWorkTs => s.workTs > 0
      case Take => false
      case _ => true
  }

  function AfterTake(g: Stage, x: int): Stage {
    var pc := if Divides(g.prime, x) then Take else if g.nextPrime == 0 then OutPrime(x) else OutNext(x);
    g.(pc := pc, count := g.count + 1)
  }

  function AfterMove(g: Stage): Stage
    requires g.pc != Take
  {
    match g.pc
    case TakePrimeTs => g.(pc := Announce)
    case Announce => g.(pc := TakeWorkTs)
    case TakeWorkTs => g.(pc := Take)
    case OutPrime(x) => g.(pc := OutPrimeTs(x))
    case OutPrimeTs(x) => g.(pc := Take, nextPrime := x)
    case OutNext(x) => g.(pc := Take, outcount := g.outcount + 1)
  }

  function Apply(n: int, s: Net, e: Event): Net
    requires Enabled(n, s, e)
  {
    match e
    case Feed => s.(work := s.work + multiset{Fed(s.fed)}, fed := s.fed + 1)
    case Print(x) => s.(announced := s.announced - multiset{x}, printed := s.printed + [x])
    case SlaveStarts => s.(waiting := s.waiting - 1, workTs := s.workTs - 1, idle := s.idle + 1)
    case SlaveTakes(item) =>
      s.(work := s.work - multiset{item}, idle := s.idle - 1, returning := s.returning + multiset{item.0})
    case SlaveReturns(x) =>
      s.(workTs := s.workTs + 1, returning := s.returning - multiset{x}, spawning := s.spawning + multiset{x})
    case SlaveSpawns(x) =>
      s.(spawning := s.spawning - multiset{x}, idle := s.idle + 1, stages := s.stages + [Stage(x, TakePrimeTs, 0, 0, 0)])
    case StageTakes(j, item) =>
      s.(work := s.work - multiset{item}, stages := s.stages[j := AfterTake(s.stages[j], item.0)])
    case StageMoves(j) =>
      var g := s.stages[j];
      var t := s.(stages := s.stages[j := AfterMove(g)]);
      match g.pc
      case TakePrimeTs => t.(primeTs := s.primeTs - 1)
      case Announce => t.(announced := s.announced + multiset{g.prime})
      case TakeWorkTs => t.(workTs := s.workTs - 1)
      case OutPrime(x) => t.(work := s.work + multiset{(x, 0, 0)})
      case OutPrimeTs(x) => t.(primeTs := s.primeTs + 1)
      case OutNext(x) => t.(work := s.work + multiset{(x, g.nextPrime, g.outcount)})
  }

  ghost predicate Step(n: int, s: Net, t: Net) {
    exists e :: Enabled(n, s, e) && t == Apply(n, s, e)
  }

  ghost predicate Run(n: int, run: seq<Net>) {
    run != [] && forall i, j :: 0 <= i && j == i + 1 && j < |run| ==> Step(n, run[i], run[j])
  }

  /** Nobody can move. */
  ghost predicate Stuck(n: int, s: Net) {
    forall e :: !Enabled(n, s, e)
  }

  // ---- The invariant -------------------------------------------------------------------------------

  /** The stage has not entered its loop. */
  predicate Starting(g: Stage) {
    g.pc.TakePrimeTs? || g.pc.Announce? || g.pc.TakeWorkTs?
  }

  /** The prime put out by a stage, 0 if there is none yet. */
  function Found(g: Stage): int {
    if g.pc.OutPrimeTs? then g.pc.x else g.nextPrime
  }

  /** What a stage has done is what follows from the numbers it has taken, which are the first of those
      meant for it. */
  ghost predicate StageOk(n: int, g: Stage) {
    && g.prime >= 2 && g.count <= |Candidates(g.prime, n)|
    && var passed := Sifted(g.prime, Candidates(g.prime, n)[..g.count]);
    match g.pc
    case OutPrime(x) => g.nextPrime == 0 && g.outcount == 0 && passed == [x]
    case OutPrimeTs(x) => g.nextPrime == 0 && g.outcount == 0 && passed == [x]
    case OutNext(x) => g.nextPrime != 0 && |passed| == g.outcount + 2 && passed[0] == g.nextPrime && passed[g.outcount + 1] == x
    case Take => if g.nextPrime == 0 then passed == [] && g.outcount == 0 else |passed| == g.outcount + 1 && passed[0] == g.nextPrime
    case _ => g.nextPrime == 0 && g.count == 0 && g.outcount == 0
  }

  /** The prime of channel j: the master feeds channel 0, stage j - 1 feeds channel j, and stage j takes
      from channel j. */
  function ChannelPrime(s: Net, j: nat): int
    requires j <= |s.stages|
  {
    if j == 0 then (if s.fed > 2 then 2 else 0) else Found(s.stages[j - 1])
  }

  function Sent(s: Net, j: nat): int
    requires j <= |s.stages|
  {
    if j == 0 then (if s.fed > 3 then s.fed - 3 else 0) else s.stages[j - 1].outcount
  }

  function Taken(s: Net, j: nat): nat {
    if j < |s.stages| then s.stages[j].count else 0
  }

  /** Under the prime p the space holds the numbers meant for the stage of p that were sent and not yet
      taken, each once, under their positions. */
  ghost predicate ChannelOk(n: int, work: multiset<Item>, p: int, taken: nat, sent: int) {
    && taken <= sent <= |Candidates(p, n)|
    && forall x, k :: work[(x, p, k)] == if taken <= k < sent && x == Candidates(p, n)[k] then 1 else 0
  }

  ghost predicate Channels(n: int, s: Net) {
    forall j: nat :: j <= |s.stages| && ChannelPrime(s, j) != 0 ==>
      ChannelOk(n, s.work, ChannelPrime(s, j), Taken(s, j), Sent(s, j))
  }

  ghost predicate OnlyChannels(s: Net) {
    forall t :: t in s.work ==> t.1 == 0 || exists j: nat :: j <= |s.stages| && ChannelPrime(s, j) == t.1
  }

  ghost predicate Stages(n: int, s: Net) {
    forall j: nat :: j < |s.stages| ==> StageOk(n, s.stages[j]) && s.stages[j].prime == ChannelPrime(s, j)
  }

  /** Under 0 the space holds nothing but the prime q, if that is there. */
  ghost predicate NewInWork(work: multiset<Item>, there: bool, q: int) {
    forall x, k :: work[(x, 0, k)] == (if there && x == q && k == 0 then 1 else 0)
  }

  /** The prime put out last is in the space, with a slave, or already has its stage (q is 0). */
  ghost predicate NewPrime(s: Net, q: int) {
    && (s.returning == multiset{} || (q != 0 && s.returning == multiset{q} && s.spawning == multiset{}))
    && (s.spawning == multiset{} || (q != 0 && s.spawning == multiset{q} && s.returning == multiset{}))
    && NewInWork(s.work, q != 0 && s.returning == multiset{} && s.spawning == multiset{}, q)
  }

  predicate LastStarting(s: Net) {
    s.stages != [] && Starting(s.stages[|s.stages| - 1])
  }

  /** The tuple with prime_ts is out unless the last stage, or the one before it, still has it. */
  function PrimeTsOut(stages: seq<Stage>): nat {
    if stages == [] then 1 else
      var last := stages[|stages| - 1];
      if last.nextPrime != 0 then 1
      else if !last.pc.TakePrimeTs? then 0
      else if |stages| >= 2 && stages[|stages| - 2].pc.OutPrimeTs? then 0
      else 1
  }

  /** A stage that still has to return prime_ts is the last, or the last is waiting for it. */
  ghost predicate HandedOver(stages: seq<Stage>) {
    forall j: nat :: j < |stages| - 1 && stages[j].pc.OutPrimeTs? ==> j == |stages| - 2 && stages[|stages| - 1].pc.TakePrimeTs?
  }

  ghost predicate Tokens(tokens: nat, slaves: nat, s: Net) {
    && s.waiting + s.idle + |s.returning| + |s.spawning| == slaves
    && s.workTs + (slaves - s.waiting) == tokens + |s.spawning| + (if LastStarting(s) then 1 else 0)
  }

  /** The primes announced so far. */
  ghost function Announcers(stages: seq<Stage>): multiset<int> {
    if stages == [] then multiset{} else
      var last := stages[|stages| - 1];
      Announcers(stages[..|stages| - 1]) + AnnouncedBy(last)
  }

  function AnnouncedBy(g: Stage): multiset<int> {
    if g.pc.TakePrimeTs? || g.pc.Announce? then multiset{} else multiset{g.prime}
  }

  ghost predicate Inv(n: int, tokens: nat, slaves: nat, s: Net) {
    && 2 <= s.fed <= n
    && Stages(n, s) && Channels(n, s) && OnlyChannels(s)
    && NewPrime(s, ChannelPrime(s, |s.stages|))
    && s.primeTs == PrimeTsOut(s.stages) && HandedOver(s.stages)
    && Tokens(tokens, slaves, s)
    && multiset(s.printed) + s.announced == Announcers(s.stages)
  }

  // ---- Single stages -------------------------------------------------------------------------------

  lemma Passes(p: int, n: int, k: nat)
    requires p >= 2 && k <= |Candidates(p, n)|
    ensures var passed := Sifted(p, Candidates(p, n)[..k]);
      passed != [] ==> p < passed[0] < n && Gap(p, passed[0]) && NoDivisorBelow(passed[0], p + 1) && Prefix(passed, [passed[0]] + Candidates(passed[0], n))
  {
    SiftedCandidates(p, n);
    SiftedPrefix(p, Candidates(p, n), k);
    hide Sifted, Gap, NoDivisorBelow;
  }

  lemma FoundIsLarger(n: int, g: Stage)
    requires StageOk(n, g) && Found(g) != 0
    ensures g.prime < Found(g) < n && Gap(g.prime, Found(g)) && NoDivisorBelow(Found(g), g.prime + 1)
    ensures g.outcount <= |Candidates(Found(g), n)| && !Starting(g) && (g.pc.OutPrimeTs? ==> g.nextPrime == 0)
  {
    hide Gap, NoDivisorBelow, Sifted;
    Passes(g.prime, n, g.count);
  }

  lemma TakeIsOk(n: int, g: Stage, x: int)
    requires StageOk(n, g) && g.pc == Take && g.count < |Candidates(g.prime, n)| && x == Candidates(g.prime, n)[g.count]
    ensures StageOk(n, AfterTake(g, x)) && Found(AfterTake(g, x)) == Found(g)
  {
    hide Divides, Sifted, Candidates;
    SiftedNext(g.prime, Candidates(g.prime, n), g.count);
  }

  lemma MoveIsOk(n: int, g: Stage)
    requires StageOk(n, g) && g.pc != Take
    ensures StageOk(n, AfterMove(g))
    ensures Found(AfterMove(g)) == if g.pc.OutPrime? then g.pc.x else Found(g)
    ensures g.pc.OutPrime? ==> Found(g) == 0 && g.pc.x > g.prime && g.outcount == 0
    ensures g.pc.OutNext? ==> g.outcount < |Candidates(g.nextPrime, n)| && Candidates(g.nextPrime, n)[g.outcount] == g.pc.x
    ensures g.pc.OutNext? ==> g.nextPrime != 0
  {
    hide Sifted, Gap, NoDivisorBelow, Candidates;
    Passes(g.prime, n, g.count);
    assert g.count == 0 ==> Sifted(g.prime, Candidates(g.prime, n)[..g.count]) == [] by {
      NothingSifted(g.prime, Candidates(g.prime, n));
    }
  }

  lemma NothingSifted(p: int, s: seq<int>)
    ensures Sifted(p, s[..0]) == []
  {
  }

  // ---- Channels ------------------------------------------------------------------------------------

  /** The channels of later stages carry larger primes. */
  lemma {:induction false} PrimesIncrease(n: int, s: Net, i: nat, j: nat)
    requires Stages(n, s) && i < j <= |s.stages| && ChannelPrime(s, j) != 0
    ensures 2 <= ChannelPrime(s, i) < ChannelPrime(s, j)
    decreases j
  {
    hide StageOk;
    var g := s.stages[j - 1];
    FoundIsLarger(n, g);
    AtLeastTwo(n, g);
    if i < j - 1 {
      PrimesIncrease(n, s, i, j - 1);
    }
  }

  lemma AtLeastTwo(n: int, g: Stage)
    requires StageOk(n, g)
    ensures g.prime >= 2
  {
  }

  lemma OtherChannelOk(n: int, work: multiset<Item>, item: Item, p: int, taken: nat, sent: int)
    requires ChannelOk(n, work, p, taken, sent) && item.1 != p
    ensures ChannelOk(n, work + multiset{item}, p, taken, sent)
    ensures ChannelOk(n, work - multiset{item}, p, taken, sent)
  {
    hide Candidates;
  }

  lemma SendIsOk(n: int, work: multiset<Item>, p: int, taken: nat, sent: nat)
    requires ChannelOk(n, work, p, taken, sent) && sent < |Candidates(p, n)|
    ensures ChannelOk(n, work + multiset{(Candidates(p, n)[sent], p, sent)}, p, taken, sent + 1)
  {
    hide Candidates;
  }

  lemma ReceiveIsOk(n: int, work: multiset<Item>, p: int, taken: nat, sent: int, item: Item)
    requires ChannelOk(n, work, p, taken, sent) && item in work && item.1 == p && item.2 == taken
    ensures taken < sent && item.0 == Candidates(p, n)[taken]
    ensures ChannelOk(n, work - multiset{item}, p, taken + 1, sent)
  {
    var x, k := item.0, item.2;
    assert item == (x, p, k);
    assert work[(x, p, k)] == (if taken <= k < sent && x == Candidates(p, n)[k] then 1 else 0);
  }

  lemma EmptyChannelOk(n: int, work: multiset<Item>, p: int)
    requires forall t :: t in work ==> t.1 != p
    ensures ChannelOk(n, work, p, 0, 0)
  {
    hide Candidates;
  }
}
