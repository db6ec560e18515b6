/** Integers in decimal, as sprintf with %i writes them and atoi reads them. */
module Decimal {

  function Digit(d: nat): char
    requires d < 10
  {
    '0' + d as char
  }

  function WriteNat(n: nat): string {
    if n < 10 then [Digit(n)] else WriteNat(n / 10) + [Digit(n % 10)]
  }

  function Write(i: int): string {
    if i < 0 then "-" + WriteNat(-i) else WriteNat(i)
  }

  predicate IsDigit(c: char) {
    '0' <= c <= '9'
  }

  predicate IsSpace(c: char) {
    c == ' ' || '\t' <= c <= '\r'
  }

  /** Reads digits up to the first other character. */
  function ReadDigits(s: string, so_far: nat): nat {
    if s == [] || !IsDigit(s[0]) then so_far
    else ReadDigits(s[1..], 10 * so_far + (s[0] as int - '0' as int))
  }

  function Read(s: string): int {
    if s == [] then 0
    else if IsSpace(s[0]) then Read(s[1..])
    else if s[0] == '-' then 0 - ReadDigits(s[1..], 0)
    else if s[0] == '+' then ReadDigits(s[1..], 0)
    else ReadDigits(s, 0)
  }

  ghost predicate AllDigits(s: string) {
    forall c :: c in s ==> IsDigit(c)
  }

  lemma {:induction false} WritesDigits(n: nat)
    ensures AllDigits(WriteNat(n)) && WriteNat(n) != []
  {
    if n >= 10 {
      WritesDigits(n / 10);
    }
  }

  lemma {:induction false} ReadDigitsJoin(s: string, c: char, so_far: nat)
    requires AllDigits(s) && IsDigit(c)
    ensures ReadDigits(s + [c], so_far) == 10 * ReadDigits(s, so_far) + (c as int - '0' as int)
  {
    if s == [] {
      assert ([c])[1..] == [];
    } else {
      assert s[0] in s && (s + [c])[0] == s[0] && (s + [c])[1..] == s[1..] + [c];
      ReadDigitsJoin(s[1..], c, 10 * so_far + (s[0] as int - '0' as int));
    }
  }

  lemma {:induction false} NatRoundTrip(n: nat)
    ensures ReadDigits(WriteNat(n), 0) == n
  {
    if n >= 10 {
      WritesDigits(n / 10);
      NatRoundTrip(n / 10);
      ReadDigitsJoin(WriteNat(n / 10), Digit(n % 10), 0);
    } else {
      assert [Digit(n)][1..] == [];
    }
  }

  lemma RoundTrip(i: int)
    ensures Read(Write(i)) == i
  {
    var n := if i < 0 then -i else i;
    NatRoundTrip(n);
    WritesDigits(n);
    if i < 0 {
      assert Write(i)[1..] == WriteNat(n);
    } else {
      assert Write(i)[0] in Write(i);
    }
  }
}
