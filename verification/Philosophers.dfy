/** Dining philosophers over a tuplespace with one room ticket (linda/examples/philosophers.py), for any number
    of at least two. Each tuple operation is one step. */
module Philosophers {

  /** Where a philosopher stands: between two operations, holding what was taken and not yet put back. */
  datatype Place = Thinking | WantsTicket | WantsFirst | WantsSecond | ReturnsTicket | Eating | ReturnsSecond | Gone

  /** The places at the table, the room tickets in the space, and the chopsticks in the space. */
  datatype Table = Table(places: seq<Place>, tickets: nat, chopsticks: multiset<nat>)

  function Next(n: nat, i: nat): nat
    requires i < n
  {
    if i + 1 == n then 0 else i + 1
  }

  function AllSticks(n: nat): multiset<nat> {
    if n == 0 then multiset{} else AllSticks(n - 1) + multiset{n - 1}
  }

  predicate IsInitial(n: nat, s: Table) {
    && |s.places| == n && (forall i :: 0 <= i < n ==> s.places[i] == Thinking)
    && s.tickets == 1 && s.chopsticks == AllSticks(n)
  }

  predicate HoldsTicket(p: Place) {
    p.WantsFirst? || p.WantsSecond? || p.ReturnsTicket?
  }

  predicate HoldsFirst(p: Place) {
    p.WantsSecond? || p.ReturnsTicket? || p.Eating?
  }

  predicate HoldsSecond(p: Place) {
    p.ReturnsTicket? || p.Eating? || p.ReturnsSecond?
  }

  ghost predicate Move(s: Table, t: Table, i: nat, p: Place) {
    i < |s.places| && t.places == s.places[i := p]
  }

  /** Philosopher i does the next thing. */
  ghost predicate StepOf(n: nat, s: Table, t: Table, i: nat) {
    && |s.places| == n && i < n &&
    match s.places[i]
    case Thinking => (Move(s, t, i, WantsTicket) || Move(s, t, i, Gone)) && t.tickets == s.tickets && t.chopsticks == s.chopsticks
    case WantsTicket => s.tickets > 0 && Move(s, t, i, WantsFirst) && t.tickets == s.tickets - 1 && t.chopsticks == s.chopsticks
    case WantsFirst => i in s.chopsticks && Move(s, t, i, WantsSecond) && t.tickets == s.tickets && t.chopsticks == s.chopsticks - multiset{i}
    case WantsSecond =>
      Next(n, i) in s.chopsticks && Move(s, t, i, ReturnsTicket) && t.tickets == s.tickets && t.chopsticks == s.chopsticks - multiset{Next(n, i)}
    case ReturnsTicket => Move(s, t, i, Eating) && t.tickets == s.tickets + 1 && t.chopsticks == s.chopsticks
    case Eating => Move(s, t, i, ReturnsSecond) && t.tickets == s.tickets && t.chopsticks == s.chopsticks + multiset{i}
    case ReturnsSecond => Move(s, t, i, Thinking) && t.tickets == s.tickets && t.chopsticks == s.chopsticks + multiset{Next(n, i)}
    case Gone => false
  }

  ghost predicate Step(n: nat, s: Table, t: Table) {
    exists i: nat :: StepOf(n, s, t, i)
  }

  ghost predicate Run(n: nat, run: seq<Table>) {
    run != [] && IsInitial(n, run[0]) && forall i, j :: 0 <= i && j == i + 1 && j < |run| ==> Step(n, run[i], run[j])
  }

  /** The one ticket is in the space or with one philosopher. */
  ghost predicate OneTicket(s: Table) {
    && s.tickets <= 1
    && (s.tickets == 1 ==> forall i :: 0 <= i < |s.places| ==> !HoldsTicket(s.places[i]))
    && (s.tickets == 0 ==> exists i :: 0 <= i < |s.places| && HoldsTicket(s.places[i]))
    && forall i, j :: 0 <= i < j < |s.places| ==> !(HoldsTicket(s.places[i]) && HoldsTicket(s.places[j]))
  }

  /** Chopstick Next(n, i) is in the space, or its own philosopher has it as the first, or philosopher i has
      it as the second: exactly one of these. */
  ghost predicate StickOnce(n: nat, s: Table, i: nat)
    requires |s.places| == n && i < n
  {
    s.chopsticks[Next(n, i)] + (if HoldsFirst(s.places[Next(n, i)]) then 1 else 0) + (if HoldsSecond(s.places[i]) then 1 else 0) == 1
  }

  ghost predicate Inv(n: nat, s: Table) {
    && |s.places| == n && OneTicket(s)
    && (forall i: nat :: i < n ==> StickOnce(n, s, i))
    && (forall c :: c in s.chopsticks ==> c < n)
  }

  lemma {:induction false} AllSticksAre(n: nat, c: nat)
    ensures AllSticks(n)[c] == if c < n then 1 else 0
  {
    if n > 0 {
      AllSticksAre(n - 1, c);
    }
  }

  lemma InitialInv(n: nat, s: Table)
    requires n >= 2 && IsInitial(n, s)
    ensures Inv(n, s)
  {
    forall c: nat
      ensures s.chopsticks[c] == if c < n then 1 else 0
    {
      AllSticksAre(n, c);
    }
  }

  lemma NextDiffers(n: nat, i: nat, j: nat)
    requires n >= 2 && i < n && j < n && i != j
    ensures Next(n, i) != Next(n, j) && Next(n, i) != i
  {
  }

  lemma StepKeepsTicket(n: nat, s: Table, t: Table, i: nat)
    requires |s.places| == n && OneTicket(s) && StepOf(n, s, t, i)
    ensures OneTicket(t)
  {
    if t.tickets == 0 {
      if s.tickets == 1 {
        assert HoldsTicket(t.places[i]);
      } else {
        var j :| 0 <= j < n && HoldsTicket(s.places[j]);
        assert HoldsTicket(t.places[j]);
      }
    }
  }

  function One(b: bool): int {
    if b then 1 else 0
  }

  /** A step changes what is in the space by what changes in the hands of i. */
  lemma StickChange(n: nat, s: Table, t: Table, i: nat, x: nat)
    requires n >= 2 && |s.places| == n && StepOf(n, s, t, i)
    ensures t.places == s.places[i := t.places[i]] && |t.places| == n
    ensures (t.chopsticks[x] as int) == (s.chopsticks[x] as int) +
        (if x == i then One(HoldsFirst(s.places[i])) - One(HoldsFirst(t.places[i])) else 0) +
        (if x == Next(n, i) then One(HoldsSecond(s.places[i])) - One(HoldsSecond(t.places[i])) else 0)
  {
    NextDiffers(n, i, if i == 0 then 1 else 0);
    hide Next;
    var p, q := s.places[i], t.places[i];
    match p
    case WantsFirst => assert t.chopsticks == s.chopsticks - multiset{i} && q.WantsSecond?;
    case WantsSecond => assert t.chopsticks == s.chopsticks - multiset{Next(n, i)} && q.ReturnsTicket?;
    case Eating => assert t.chopsticks == s.chopsticks + multiset{i} && q.ReturnsSecond?;
    case ReturnsSecond => assert t.chopsticks == s.chopsticks + multiset{Next(n, i)} && q.Thinking?;
    case _ =>
  }

  lemma PlacesElsewhere(s: Table, t: Table, i: nat)
    requires i < |s.places| == |t.places| && t.places == s.places[i := t.places[i]]
    ensures forall k :: 0 <= k < |s.places| && k != i ==> t.places[k] == s.places[k]
  {
  }

  lemma StepKeepsSticks(n: nat, s: Table, t: Table, i: nat, j: nat)
    requires n >= 2 && |s.places| == n && StepOf(n, s, t, i) && j < n && StickOnce(n, s, j)
    ensures |t.places| == n && StickOnce(n, t, j)
  {
    StickChange(n, s, t, i, Next(n, j));
    NextDiffers(n, j, Next(n, j));
    if i != j {
      NextDiffers(n, i, j);
    }
    PlacesElsewhere(s, t, i);
    hide StepOf, Next;
  }

  lemma StepKeepsInv(n: nat, s: Table, t: Table)
    requires n >= 2 && Inv(n, s) && Step(n, s, t)
    ensures Inv(n, t)
  {
    hide StickOnce, OneTicket;
    var i: nat :| StepOf(n, s, t, i);
    StepKeepsTicket(n, s, t, i);
    forall j: nat | j < n
      ensures StickOnce(n, t, j)
    {
      StepKeepsSticks(n, s, t, i, j);
    }
  }

  lemma {:induction false} RunInv(n: nat, run: seq<Table>, i: nat)
    requires n >= 2 && Run(n, run) && i < |run|
    ensures Inv(n, run[i])
  {
    hide Inv, Step;
    if i == 0 {
      InitialInv(n, run[0]);
    } else {
      RunInv(n, run, i - 1);
      StepKeepsInv(n, run[i - 1], run[i]);
    }
  }

  /** Neighbours never eat at the same time. */
  lemma NeighboursExclude(n: nat, run: seq<Table>, k: nat, i: nat)
    requires n >= 2 && Run(n, run) && k < |run| && i < n
    ensures |run[k].places| == n && !(run[k].places[i].Eating? && run[k].places[Next(n, i)].Eating?)
  {
    RunInv(n, run, k);
    assert StickOnce(n, run[k], i);
  }

  /** Every chopstick and the ticket are in the space or in one hand, in every state of every run. */
  lemma NothingIsLost(n: nat, run: seq<Table>, k: nat, i: nat)
    requires n >= 2 && Run(n, run) && k < |run| && i < n
    ensures var s := run[k]; |s.places| == n && StickOnce(n, s, i) && OneTicket(s)
  {
    hide StickOnce, OneTicket, Run;
    RunInv(n, run, k);
  }

  /** The philosopher with a chopstick that the ticket holder waits for has no ticket and can go on. */
  lemma HolderCanMove(n: nat, s: Table, i: nat, c: nat) returns (t: Table)
    requires n >= 2 && Inv(n, s) && i < n && HoldsTicket(s.places[i]) && c < n && c !in s.chopsticks
    requires (s.places[i].WantsFirst? && c == i) || (s.places[i].WantsSecond? && c == Next(n, i))
    ensures Step(n, s, t)
  {
    var j := if c == 0 then n - 1 else c - 1;
    assert Next(n, j) == c && StickOnce(n, s, j);
    var h := if HoldsFirst(s.places[c]) then c else j;
    assert h != i && !HoldsTicket(s.places[h]);
    if s.places[h].Eating? {
      t := Table(s.places[h := ReturnsSecond], s.tickets, s.chopsticks + multiset{h});
    } else {
      t := Table(s.places[h := Thinking], s.tickets, s.chopsticks + multiset{Next(n, h)});
    }
    assert StepOf(n, s, t, h);
  }

  /** In every state of every run, while someone has not left, someone can go on. */
  lemma NoDeadlock(n: nat, run: seq<Table>, k: nat, i: nat) returns (t: Table)
    requires n >= 2 && Run(n, run) && k < |run| && i < n && i < |run[k].places| && !run[k].places[i].Gone?
    ensures Step(n, run[k], t)
  {
    RunInv(n, run, k);
    t := CanGoOn(n, run[k], i);
  }

  lemma CanGoOn(n: nat, s: Table, i: nat) returns (t: Table)
    requires n >= 2 && Inv(n, s) && i < n && !s.places[i].Gone?
    ensures Step(n, s, t)
    decreases if s.places[i].WantsTicket? then 1 else 0
  {
    match s.places[i]
    case Thinking =>
      t := s.(places := s.places[i := WantsTicket]);
      assert StepOf(n, s, t, i);
    case WantsTicket =>
      if s.tickets > 0 {
        t := Table(s.places[i := WantsFirst], s.tickets - 1, s.chopsticks);
        assert StepOf(n, s, t, i);
      } else {
        var h :| 0 <= h < n && HoldsTicket(s.places[h]);
        t := CanGoOn(n, s, h);
      }
    case WantsFirst =>
      if i in s.chopsticks {
        t := Table(s.places[i := WantsSecond], s.tickets, s.chopsticks - multiset{i});
        assert StepOf(n, s, t, i);
      } else {
        t := HolderCanMove(n, s, i, i);
      }
    case WantsSecond =>
      if Next(n, i) in s.chopsticks {
        t := Table(s.places[i := ReturnsTicket], s.tickets, s.chopsticks - multiset{Next(n, i)});
        assert StepOf(n, s, t, i);
      } else {
        t := HolderCanMove(n, s, i, Next(n, i));
      }
    case ReturnsTicket =>
      t := Table(s.places[i := Eating], s.tickets + 1, s.chopsticks);
      assert StepOf(n, s, t, i);
    case Eating =>
      t := Table(s.places[i := ReturnsSecond], s.tickets, s.chopsticks + multiset{i});
      assert StepOf(n, s, t, i);
    case ReturnsSecond =>
      t := Table(s.places[i := Thinking], s.tickets, s.chopsticks + multiset{Next(n, i)});
      assert StepOf(n, s, t, i);
  }

  /** One philosopher alone gets stuck waiting for the only chopstick a second time. */
  lemma AloneGetsStuck()
    ensures var run := [
        Table([Thinking], 1, multiset{0}), Table([WantsTicket], 1, multiset{0}), Table([WantsFirst], 0, multiset{0}), Table([WantsSecond], 0, multiset{})];
      Run(1, run) && forall t :: !Step(1, run[3], t)
  {
    var a, b, c, d := Table([Thinking], 1, multiset{0}), Table([WantsTicket], 1, multiset{0}), Table([WantsFirst], 0, multiset{0}), Table([WantsSecond], 0, multiset{});
    assert AllSticks(1) == multiset{0};
    assert StepOf(1, a, b, 0) && StepOf(1, b, c, 0);
    assert multiset{0} - multiset{0} == multiset{};
    assert StepOf(1, c, d, 0);
    assert forall t, i: nat :: !StepOf(1, d, t, i);
  }
}
