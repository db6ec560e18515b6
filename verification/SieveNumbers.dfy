/** What one sieve stage receives and passes on, as numbers. */
module SieveNumbers {

  predicate Divides(d: int, x: int) {
    d > 0 && x % d == 0
  }

  /** Nothing from 2 up to but not including p divides x. */
  ghost predicate NoDivisorBelow(x: int, p: int) {
    forall d :: 2 <= d < p ==> !Divides(d, x)
  }

  ghost predicate IsPrime(p: int) {
    p >= 2 && NoDivisorBelow(p, p)
  }

  /** The numbers above p and below n that nothing smaller than p divides, in increasing order. */
  ghost function Candidates(p: int, n: int): seq<int>
    decreases n - p
  {
    if n <= p + 1 then [] else
      Candidates(p, n - 1) + (if NoDivisorBelow(n - 1, p) then [n - 1] else [])
  }

  /** What remains of s without the multiples of p. */
  ghost function Sifted(p: int, s: seq<int>): seq<int> {
    if s == [] then [] else
      var last := s[|s| - 1];
      Sifted(p, s[..|s| - 1]) + (if Divides(p, last) then [] else [last])
  }

  ghost predicate Prefix(a: seq<int>, b: seq<int>) {
    |a| <= |b| && a == b[..|a|]
  }

  lemma SiftedNext(p: int, s: seq<int>, k: nat)
    requires k < |s|
    ensures Sifted(p, s[..k + 1]) == Sifted(p, s[..k]) + (if Divides(p, s[k]) then [] else [s[k]])
  {
    assert s[..k + 1][..k] == s[..k];
  }

  lemma {:induction false} SiftedPrefix(p: int, s: seq<int>, k: nat)
    requires k <= |s|
    ensures Prefix(Sifted(p, s[..k]), Sifted(p, s))
    decreases |s| - k
  {
    if k == |s| {
      assert s[..k] == s;
    } else {
      SiftedPrefix(p, s, k + 1);
      SiftedNext(p, s, k);
    }
  }

  lemma {:induction false} SiftedKeeps(p: int, s: seq<int>, x: int)
    ensures x in Sifted(p, s) <==> x in s && !Divides(p, x)
  {
    if s != [] {
      SiftedKeeps(p, s[..|s| - 1], x);
      assert s == s[..|s| - 1] + [s[|s| - 1]];
    }
  }

  lemma {:induction false} CandidatesMeaning(p: int, n: int, x: int)
    ensures x in Candidates(p, n) <==> p < x < n && NoDivisorBelow(x, p)
    decreases n - p
  {
    if n > p + 1 {
      CandidatesMeaning(p, n - 1, x);
    }
  }

  lemma {:induction false} CandidatesIncrease(p: int, n: int, i: nat, j: nat)
    requires i < j < |Candidates(p, n)|
    ensures Candidates(p, n)[i] < Candidates(p, n)[j]
    decreases n - p
  {
    var init := Candidates(p, n - 1);
    if j < |init| {
      CandidatesIncrease(p, n - 1, i, j);
    } else {
      assert init[i] in init;
      CandidatesMeaning(p, n - 1, init[i]);
    }
  }

  /** The first stage receives every number from 3 on. */
  lemma {:induction false} FirstCandidates(n: int, k: nat)
    requires k < n - 3
    ensures |Candidates(2, n)| == n - 3 && Candidates(2, n)[k] == k + 3
  {
    if n == 4 {
      assert Candidates(2, 3) == [];
    } else {
      FirstCandidates(n - 1, 0);
      if k < n - 4 {
        FirstCandidates(n - 1, k);
      }
    }
  }

  lemma DividesThrough(a: int, b: int, c: int)
    requires Divides(a, b) && Divides(b, c)
    ensures Divides(a, c)
  {
    var q, r := b / a, c / b;
    assert c == a * (q * r);
    MultipleIsDivided(a, q * r);
  }

  lemma MultipleIsDivided(a: int, q: int)
    requires a > 0
    ensures (a * q) % a == 0
  {
    var k := q - (a * q) / a;
    assert a * k == (a * q) % a;
    AwayFromZero(a, k);
  }

  lemma AwayFromZero(a: int, k: int)
    requires a > 0
    ensures k >= 1 ==> a * k >= a
    ensures k <= -1 ==> a * k <= -a
  {
  }

  /** Something from 2 to p divides y. */
  ghost predicate Crossed(y: int, p: int) {
    exists e :: 2 <= e <= p && Divides(e, y)
  }

  lemma CrossedOrNot(y: int, p: int)
    ensures Crossed(y, p) <==> !NoDivisorBelow(y, p + 1)
  {
    if !NoDivisorBelow(y, p + 1) {
      var d :| 2 <= d < p + 1 && Divides(d, y);
      assert d <= p;
    }
    if Crossed(y, p) {
      var e :| 2 <= e <= p && Divides(e, y);
      assert e < p + 1;
    }
  }

  /** Every number strictly between p and q has a divisor that is at most p. */
  ghost predicate Gap(p: int, q: int) {
    forall y :: p < y < q ==> Crossed(y, p)
  }

  /** Across a gap there is nothing new to divide by. */
  lemma GapAddsNoDivisors(p: int, q: int, x: int)
    requires 2 <= p < q && Gap(p, q)
    ensures NoDivisorBelow(x, p + 1) <==> NoDivisorBelow(x, q)
  {
    hide Divides;
    if NoDivisorBelow(x, p + 1) {
      forall d | 2 <= d < q
        ensures !Divides(d, x)
      {
        if d > p {
          assert Crossed(d, p);
          var e :| 2 <= e <= p && Divides(e, d);
          if Divides(d, x) {
            DividesThrough(e, d, x);
          }
        }
      }
    }
  }

  /** s is a first number q, with a gap between p and q, followed by what the stage of q is to receive; or
      nothing at all, with a gap up to n. */
  ghost predicate Continues(p: int, n: int, s: seq<int>) {
    if s == [] then Gap(p, n)
    else p < s[0] < n && Gap(p, s[0]) && NoDivisorBelow(s[0], p + 1) && s == [s[0]] + Candidates(s[0], n)
  }

  /** What a stage passes on. */
  lemma {:induction false} SiftedCandidates(p: int, n: int)
    requires p >= 2
    ensures Continues(p, n, Sifted(p, Candidates(p, n)))
    decreases n - p
  {
    if n > p + 1 {
      hide Sifted, NoDivisorBelow, Candidates, Continues;
      SiftedCandidates(p, n - 1);
      SiftedGrows(p, n);
      ContinuesOn(p, n, Sifted(p, Candidates(p, n - 1)));
    }
  }

  lemma ContinuesOn(p: int, n: int, s: seq<int>)
    requires 2 <= p < n - 1 && Continues(p, n - 1, s)
    ensures Continues(p, n, s + (if NoDivisorBelow(n - 1, p + 1) then [n - 1] else []))
  {
    hide NoDivisorBelow, Crossed, Divides;
    var x := n - 1;
    CrossedOrNot(x, p);
    if s != [] {
      GapAddsNoDivisors(p, s[0], x);
      hide Gap;
      assert Candidates(s[0], n) == Candidates(s[0], x) + (if NoDivisorBelow(x, s[0]) then [x] else []);
    } else if NoDivisorBelow(x, p + 1) {
      assert Candidates(x, n) == [];
    }
  }

  lemma SiftedGrows(p: int, n: int)
    requires 2 <= p && n > p + 1
    ensures Sifted(p, Candidates(p, n)) == Sifted(p, Candidates(p, n - 1)) + (if NoDivisorBelow(n - 1, p + 1) then [n - 1] else [])
  {
    hide Divides;
    var x := n - 1;
    var init, all := Candidates(p, n - 1), Candidates(p, n);
    assert NoDivisorBelow(x, p + 1) <==> NoDivisorBelow(x, p) && !Divides(p, x);
    if NoDivisorBelow(x, p) {
      assert all == init + [x] && all[..|all| - 1] == init && all[|all| - 1] == x;
      assert Sifted(p, all) == Sifted(p, init) + (if Divides(p, x) then [] else [x]);
    } else {
      assert all == init;
    }
  }

  /** The first number a stage passes on is a prime, the next one after p. */
  lemma NextPrime(p: int, q: int)
    requires 2 <= p < q && Gap(p, q) && NoDivisorBelow(q, p + 1)
    ensures IsPrime(q) && forall r :: p < r < q ==> !IsPrime(r)
  {
    GapAddsNoDivisors(p, q, q);
    forall r | p < r < q
      ensures !IsPrime(r)
    {
      assert Crossed(r, p);
      var d :| 2 <= d <= p && Divides(d, r);
      assert !NoDivisorBelow(r, r);
    }
  }

  lemma GapHasNoPrimes(p: int, n: int)
    requires p >= 2 && Gap(p, n)
    ensures forall r :: p < r < n ==> !IsPrime(r)
  {
    forall r | p < r < n
      ensures !IsPrime(r)
    {
      assert Crossed(r, p);
      var d :| 2 <= d <= p && Divides(d, r);
      assert !NoDivisorBelow(r, r);
    }
  }
}
