/** Hexadecimal numbers of a minimum width, as %0wx writes them and int(s, 16) reads them. */
module Hexadecimal {

  function Digit(d: nat): char
    requires d < 16
  {
    if d < 10 then '0' + d as char else 'a' + (d - 10) as char
  }

  function Value(c: char): nat {
    if '0' <= c <= '9' then c as int - '0' as int
    else if 'a' <= c <= 'f' then c as int - 'a' as int + 10
    else 0
  }

  function Digits(n: nat): string {
    if n < 16 then [Digit(n)] else Digits(n / 16) + [Digit(n % 16)]
  }

  function Zeros(k: nat): string {
    if k == 0 then "" else "0" + Zeros(k - 1)
  }

  function Padded(n: nat, width: nat): string {
    var s := Digits(n);
    (if |s| < width then Zeros(width - |s|) else "") + s
  }

  function Parse(s: string): nat {
    if s == "" then 0 else 16 * Parse(s[..|s| - 1]) + Value(s[|s| - 1])
  }

  function Power(w: nat): nat {
    if w == 0 then 1 else 16 * Power(w - 1)
  }

  lemma {:induction false} ParseDigits(n: nat)
    ensures Parse(Digits(n)) == n && Digits(n) != ""
  {
    var s := Digits(n);
    if n < 16 {
      assert s[..0] == "";
    } else {
      ParseDigits(n / 16);
      assert s[..|s| - 1] == Digits(n / 16);
    }
  }

  lemma {:induction false} ParseZeros(k: nat, s: string)
    ensures |Zeros(k)| == k && Parse(Zeros(k) + s) == Parse(s)
    decreases |s|, k
  {
    if s == "" {
      if k > 0 {
        ZerosEnd(k);
        ParseZeros(k - 1, "");
        assert Zeros(k - 1) + "" == Zeros(k - 1);
        assert Zeros(k)[..k - 1] == Zeros(k - 1);
      }
      assert Zeros(k) + "" == Zeros(k);
    } else {
      var t := Zeros(k) + s;
      assert t[..|t| - 1] == Zeros(k) + s[..|s| - 1];
      ParseZeros(k, s[..|s| - 1]);
    }
  }

  lemma {:induction false} ZerosEnd(k: nat)
    requires k > 0
    ensures Zeros(k) == Zeros(k - 1) + "0" && |Zeros(k)| == k
  {
    if k > 1 {
      ZerosEnd(k - 1);
    }
  }

  /** Reading gives back what was written. */
  lemma RoundTrip(n: nat, width: nat)
    ensures Parse(Padded(n, width)) == n
  {
    hide Digits, Parse, Zeros;
    ParseDigits(n);
    var s := Digits(n);
    if |s| < width {
      ParseZeros(width - |s|, s);
    } else {
      assert "" + s == s;
    }
  }

  lemma {:induction false} DigitsFit(n: nat, width: nat)
    requires width > 0 && n < Power(width)
    ensures |Digits(n)| <= width
  {
    if n >= 16 {
      DigitsFit(n / 16, width - 1);
    }
  }

  /** Numbers that fit take exactly the width. */
  lemma Fits(n: nat, width: nat)
    requires width > 0 && n < Power(width)
    ensures |Padded(n, width)| == width
  {
    DigitsFit(n, width);
    var s := Digits(n);
    if |s| < width {
      ParseZeros(width - |s|, "");
    }
  }

  lemma Powers()
    ensures Power(4) == 0x1_0000 && Power(8) == 0x1_0000_0000 && Power(16) == 0x1_0000_0000_0000_0000
  {
    assert Power(2) == 0x100;
    assert Power(4) == 16 * 16 * Power(2);
    assert Power(6) == 16 * 16 * Power(4);
    assert Power(8) == 16 * 16 * Power(6);
    assert Power(10) == 16 * 16 * Power(8);
    assert Power(12) == 16 * 16 * Power(10);
    assert Power(14) == 16 * 16 * Power(12);
    assert Power(16) == 16 * 16 * Power(14);
  }
}
