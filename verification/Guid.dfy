/** Globally unique ids (linda/src/linda/guid.py): a clock, a counter that wraps round, and an address. */
module Guid {
  import opened Pigeonhole
  import Hexadecimal

  const MAX_COUNTER: nat := 0xfffffffe

  /** The module's variables: the last counter used, the one the current millisecond started from, and that
      millisecond. */
  datatype State = State(counter: nat, first: nat, last: nat)

  /** Whether generate must wait: all counters of this millisecond are used up. */
  predicate Exhausted(s: State, now: nat) {
    s.last == now && s.counter == s.first
  }

  /** The variables after a call that sees the time now and may draw the random number first. */
  function Next(s: State, now: nat, first: nat): State {
    var s' := if s.last != now then State(first, first, now) else s;
    var c := s'.counter + 1;
    State(if c > MAX_COUNTER then 0 else c, s'.first, now)
  }

  function Hexip(ip: seq<nat>): string {
    if ip == [] then "" else Hexadecimal.Padded(ip[0], 4) + Hexip(ip[1..])
  }

  function Format(now: nat, counter: nat, hexip: string): string {
    Hexadecimal.Padded(now, 16) + Hexadecimal.Padded(counter, 8) + hexip
  }

  function ExtractTime(guid: string): nat
    requires |guid| >= 16
  {
    Hexadecimal.Parse(guid[..16])
  }

  function ExtractCounter(guid: string): nat
    requires |guid| >= 24
  {
    Hexadecimal.Parse(guid[16..24])
  }

  /** The address as a list of numbers; extract_ip joins them with dots. */
  function ExtractIp(guid: string): seq<nat>
    requires |guid| == 40
  {
    [Hexadecimal.Parse(guid[24..28]), Hexadecimal.Parse(guid[28..32]), Hexadecimal.Parse(guid[32..36]), Hexadecimal.Parse(guid[36..40])]
  }

  // ---- Counters ------------------------------------------------------------------------------------

  /** How many counters come between the one a millisecond starts from and x. */
  function Position(first: nat, x: nat): int {
    if x > first then x - first - 1 else x - first + MAX_COUNTER
  }

  ghost predicate InRange(s: State) {
    s.counter <= MAX_COUNTER && s.first <= MAX_COUNTER
  }

  /** The times and counters issued so far are distinct, none is later than the last time, and those of that
      millisecond come no later than the counter in the round that started from first. */
  ghost predicate Inv(s: State, issued: seq<(nat, nat)>) {
    && InRange(s) && AllDistinct(issued)
    && forall i :: 0 <= i < |issued| ==>
        issued[i].0 <= s.last && issued[i].1 <= MAX_COUNTER &&
        (issued[i].0 == s.last ==> Position(s.first, issued[i].1) <= Position(s.first, s.counter))
  }

  lemma NextPosition(s: State, now: nat, first: nat)
    requires InRange(s) && 1 <= first <= MAX_COUNTER && !Exhausted(s, now)
    ensures var t := Next(s, now, first);
      InRange(t) && t.last == now && if s.last == now then t.first == s.first && Position(s.first, t.counter) == Position(s.first, s.counter) + 1 else t.first == first
  {
  }

  /** As long as the clock does not go back, a call issues a time and counter that were not issued before. */
  lemma NextIsNew(s: State, issued: seq<(nat, nat)>, now: nat, first: nat)
    requires Inv(s, issued) && now >= s.last && 1 <= first <= MAX_COUNTER && !Exhausted(s, now)
    ensures var t := Next(s, now, first); (t.last, t.counter) !in issued && Inv(t, issued + [(t.last, t.counter)])
  {
    NextPosition(s, now, first);
    var t := Next(s, now, first);
    var more := issued + [(t.last, t.counter)];
    assert forall i :: 0 <= i < |issued| ==> more[i] == issued[i];
  }

  // ---- Strings -------------------------------------------------------------------------------------

  lemma CounterWidth(c: nat)
    requires c <= MAX_COUNTER
    ensures |Hexadecimal.Padded(c, 8)| == 8
  {
    Hexadecimal.Powers();
    Hexadecimal.Fits(c, 8);
  }

  lemma Sections(t: string, c: string, h: string)
    ensures (t + c + h)[..|t|] == t && (t + c + h)[|t|..|t| + |c|] == c && (t + c + h)[|t| + |c|..] == h
  {
  }

  lemma FormatDetermines(a: (nat, nat), b: (nat, nat), hexip: string)
    requires a.1 <= MAX_COUNTER && b.1 <= MAX_COUNTER && Format(a.0, a.1, hexip) == Format(b.0, b.1, hexip)
    ensures a == b
  {
    hide Hexadecimal.Padded, Hexadecimal.Parse;
    CounterWidth(a.1);
    CounterWidth(b.1);
    Sections(Hexadecimal.Padded(a.0, 16), Hexadecimal.Padded(a.1, 8), hexip);
    Sections(Hexadecimal.Padded(b.0, 16), Hexadecimal.Padded(b.1, 8), hexip);
    assert |Hexadecimal.Padded(a.0, 16)| == |Hexadecimal.Padded(b.0, 16)|;
    Hexadecimal.RoundTrip(a.0, 16);
    Hexadecimal.RoundTrip(b.0, 16);
    Hexadecimal.RoundTrip(a.1, 8);
    Hexadecimal.RoundTrip(b.1, 8);
  }

  /** Different times or counters give different ids. */
  lemma FormatsDiffer(a: (nat, nat), b: (nat, nat), hexip: string)
    requires a.1 <= MAX_COUNTER && b.1 <= MAX_COUNTER
    ensures Format(a.0, a.1, hexip) == Format(b.0, b.1, hexip) <==> a == b
  {
    hide Format;
    if Format(a.0, a.1, hexip) == Format(b.0, b.1, hexip) {
      FormatDetermines(a, b, hexip);
    }
  }

  /** Time, counter and address are extracted as they were put in, while the time has no more than sixteen
      digits. */
  lemma ExtractsFields(now: nat, counter: nat, ip: seq<nat>)
    requires now < 0x1_0000_0000_0000_0000 && counter <= MAX_COUNTER && |ip| == 4 && forall i :: 0 <= i < 4 ==> ip[i] < 0x1_0000
    ensures var guid := Format(now, counter, Hexip(ip));
      |guid| == 40 && ExtractTime(guid) == now && ExtractCounter(guid) == counter && ExtractIp(guid) == ip
  {
    hide Hexadecimal.Padded, Hexadecimal.Parse, Hexip;
    HexipFields(ip);
    var t, c, h := Hexadecimal.Padded(now, 16), Hexadecimal.Padded(counter, 8), Hexip(ip);
    assert |t| == 16 by {
      Hexadecimal.Powers();
      Hexadecimal.Fits(now, 16);
    }
    CounterWidth(counter);
    Hexadecimal.RoundTrip(now, 16);
    Hexadecimal.RoundTrip(counter, 8);
    Sections(t, c, h);
    var guid := t + c + h;
    assert guid[24..28] == h[..4] && guid[28..32] == h[4..8] && guid[32..36] == h[8..12] && guid[36..40] == h[12..16];
    assert ip == [ip[0], ip[1], ip[2], ip[3]];
  }

  lemma HexipFields(ip: seq<nat>)
    requires |ip| == 4 && forall i :: 0 <= i < 4 ==> ip[i] < 0x1_0000
    ensures var h := Hexip(ip);
      && |h| == 16 && Hexadecimal.Parse(h[..4]) == ip[0] && Hexadecimal.Parse(h[4..8]) == ip[1]
      && Hexadecimal.Parse(h[8..12]) == ip[2] && Hexadecimal.Parse(h[12..16]) == ip[3]
  {
    hide Hexadecimal.Padded, Hexadecimal.Parse, Hexip;
    forall i | 0 <= i < 4
      ensures |Hexadecimal.Padded(ip[i], 4)| == 4 && Hexadecimal.Parse(Hexadecimal.Padded(ip[i], 4)) == ip[i]
    {
      Hexadecimal.Powers();
      Hexadecimal.Fits(ip[i], 4);
      Hexadecimal.RoundTrip(ip[i], 4);
    }
    HexipOfFour(ip);
    var a, b, d, e := Hexadecimal.Padded(ip[0], 4), Hexadecimal.Padded(ip[1], 4), Hexadecimal.Padded(ip[2], 4), Hexadecimal.Padded(ip[3], 4);
    var h := a + b + d + e;
    assert h[..4] == a && h[4..8] == b && h[8..12] == d && h[12..16] == e;
  }

  lemma HexipOfFour(ip: seq<nat>)
    requires |ip| == 4
    ensures Hexip(ip) == Hexadecimal.Padded(ip[0], 4) + Hexadecimal.Padded(ip[1], 4) + Hexadecimal.Padded(ip[2], 4) + Hexadecimal.Padded(ip[3], 4)
  {
    hide Hexadecimal.Padded;
    var b, c, d := ip[1..], ip[1..][1..], ip[1..][1..][1..];
    assert d[1..] == [] && d[0] == ip[3] && c[0] == ip[2] && b[0] == ip[1];
    assert Hexip(d) == Hexadecimal.Padded(ip[3], 4) + "";
    assert Hexip(c) == Hexadecimal.Padded(ip[2], 4) + Hexip(d);
    assert Hexip(b) == Hexadecimal.Padded(ip[1], 4) + Hexip(c);
  }

  lemma InvInRange(s: State, issued: seq<(nat, nat)>)
    requires Inv(s, issued)
    ensures InRange(s) && forall i :: 0 <= i < |issued| ==> issued[i].1 <= MAX_COUNTER
  {
  }

  /** At the i-th reading there are ids left, and at none before it. */
  ghost predicate FirstUsable(s: State, readings: seq<nat>, i: nat)
    requires i < |readings|
  {
    !Exhausted(s, readings[i]) && forall j :: 0 <= j < i ==> Exhausted(s, readings[j])
  }

  // ---- The generator -------------------------------------------------------------------------------

  class Generator {
    var counter: nat
    var firstcounter: nat
    var lasttime: nat
    const hexip: string
    ghost var issued: seq<(nat, nat)>
    ghost var returned: seq<string>

    ghost function St(): State
      reads this
    {
      State(counter, firstcounter, lasttime)
    }

    /** Every id returned is made of a time and counter issued, in order. */
    ghost predicate Valid()
      reads this
    {
      && Inv(St(), issued) && |returned| == |issued|
      && forall i :: 0 <= i < |issued| ==> returned[i] == Format(issued[i].0, issued[i].1, hexip)
    }

    constructor (hexip: string)
      ensures Valid() && returned == [] && this.hexip == hexip && lasttime == 0
    {
      this.hexip := hexip;
      counter, firstcounter, lasttime := 0, MAX_COUNTER, 0;
      issued, returned := [], [];
    }

    /** generate, with the clock's readings during the call and the random number it may draw. The clock does
        not go back, and it moves on while the call waits for the next millisecond. */
    method Generate(readings: seq<nat>, random: nat) returns (guid: string)
      requires Valid() && readings != [] && 1 <= random <= MAX_COUNTER
      requires readings[0] >= lasttime && forall i, j :: 0 <= i < j < |readings| ==> readings[i] <= readings[j]
      requires exists i :: 0 <= i < |readings| && !Exhausted(St(), readings[i])
      modifies this
      ensures Valid() && returned == old(returned) + [guid] && guid !in old(returned)
      ensures St() == Next(old(St()), lasttime, random)
      ensures exists i :: 0 <= i < |readings| && lasttime == readings[i] && FirstUsable(old(St()), readings, i)
      ensures guid == Format(lasttime, counter, hexip)
    {
      hide Format, Inv, AllDistinct;
      InvInRange(St(), issued);
      ghost var s := St();
      var k := 0;
      var now := readings[0];
      while lasttime == now && counter == firstcounter
        invariant 0 <= k < |readings| && now == readings[k]
        invariant forall j :: 0 <= j < k ==> Exhausted(s, readings[j])
        decreases |readings| - k
      {
        k := k + 1;
        now := readings[k];
      }
      assert now >= lasttime;
      NextIsNew(s, issued, now, random);
      if lasttime != now {
        firstcounter := random;
        counter := firstcounter;
      }
      counter := counter + 1;
      if counter > MAX_COUNTER {
        counter := 0;
      }
      lasttime := now;
      guid := Format(now, counter, hexip);
      forall i | 0 <= i < |issued|
        ensures returned[i] != guid
      {
        assert issued[i] in issued;
        FormatsDiffer(issued[i], (now, counter), hexip);
      }
      issued := issued + [(now, counter)];
      returned := returned + [guid];
    }
  }

  /** All ids a generator ever returned are different. */
  lemma ReturnedAreDistinct(s: State, issued: seq<(nat, nat)>, returned: seq<string>, hexip: string)
    requires Inv(s, issued) && |returned| == |issued|
    requires forall i :: 0 <= i < |issued| ==> returned[i] == Format(issued[i].0, issued[i].1, hexip)
    ensures AllDistinct(returned)
  {
    forall i, j | 0 <= i < j < |returned|
      ensures returned[i] != returned[j]
    {
      FormatsDiffer(issued[i], issued[j], hexip);
    }
  }

  /** If the clock goes back, an id can come twice: the same random number at the same millisecond. */
  lemma ClockGoingBackRepeats(s: State, now: nat, first: nat)
    requires s.last != now && 1 <= first <= MAX_COUNTER
    ensures var a := Next(s, now, first);
      var b := Next(a, now + 1, first);
      !Exhausted(a, now + 1) && !Exhausted(b, now) && Next(b, now, first) == a
  {
  }
}
