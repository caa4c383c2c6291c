/** Decimal digit strings: the text of a natural number and its value. */
module Numerals {

  predicate IsDigit(c: char) { '0' <= c <= '9' }

  predicate AllDigits(s: string) { forall i | 0 <= i < |s| :: IsDigit(s[i]) }

  type Digit = d: nat | d < 10

  function DigitChar(d: Digit): (c: char)
    ensures IsDigit(c) && DigitValue(c) == d
  {
    '0' + d as char
  }

  function DigitValue(c: char): Digit
    requires IsDigit(c)
  {
    (c - '0') as nat
  }

  /** `str(n)` for a natural number: no leading zero. */
  function NatText(n: nat): (s: string)
    ensures |s| > 0 && AllDigits(s)
    ensures s[0] == '0' <==> n == 0
    ensures n == 0 ==> s == "0"
  {
    if n < 10 then [DigitChar(n)] else NatText(n / 10) + [DigitChar(n % 10)]
  }

  /** `int(s)` of a digit string; the empty string counts as 0. */
  function NatValue(s: string): nat
    requires AllDigits(s)
  {
    if s == "" then 0 else NatValue(s[..|s| - 1]) * 10 + DigitValue(s[|s| - 1])
  }

  lemma {:induction false} ValueOfText(n: nat)
    ensures NatValue(NatText(n)) == n
  {
    if n < 10 {
      assert NatText(n)[..0] == "";
    } else {
      ValueOfText(n / 10);
      var s := NatText(n);
      assert s[..|s| - 1] == NatText(n / 10);
    }
  }

  /** A digit string without leading zero is the text of its own value. */
  lemma {:induction false} TextOfValue(s: string)
    requires |s| > 0 && AllDigits(s) && (s[0] == '0' ==> |s| == 1)
    ensures NatText(NatValue(s)) == s
    ensures NatValue(s) == 0 <==> s == "0"
  {
    var t, d := s[..|s| - 1], DigitValue(s[|s| - 1]);
    if |s| == 1 {
      assert t == "" && s == [DigitChar(d)];
    } else {
      TextOfValue(t);
      assert t != "0";
      assert NatValue(s) / 10 == NatValue(t) && NatValue(s) % 10 == d;
      assert s == t + [DigitChar(d)];
    }
  }

  /** Leading zeros do not change a value. */
  lemma {:induction false} LeadingZero(s: string)
    requires AllDigits(s)
    ensures NatValue("0" + s) == NatValue(s)
  {
    var z := "0" + s;
    if s == "" {
      assert z[..0] == "";
    } else {
      LeadingZero(s[..|s| - 1]);
      assert z[..|z| - 1] == "0" + s[..|s| - 1];
    }
  }

  /** The longest digit prefix and what follows it. */
  function Digits(s: string): (r: (string, string))
    ensures r.0 + r.1 == s && AllDigits(r.0)
    ensures r.1 == "" || !IsDigit(r.1[0])
  {
    if s != "" && IsDigit(s[0]) then
      var (a, b) := Digits(s[1..]);
      ([s[0]] + a, b)
    else ("", s)
  }

  lemma {:induction false} DigitsThen(s: string, rest: string)
    requires rest == "" || !IsDigit(rest[0])
    ensures Digits(s + rest) == (Digits(s).0, Digits(s).1 + rest)
  {
    if s == "" {
      assert s + rest == rest;
    } else if IsDigit(s[0]) {
      DigitsThen(s[1..], rest);
      assert (s + rest)[1..] == s[1..] + rest;
    }
  }

  lemma {:induction false} DigitsAll(s: string)
    requires AllDigits(s)
    ensures Digits(s) == (s, "")
  {
    if s != "" {
      DigitsAll(s[1..]);
      assert s == [s[0]] + s[1..];
    }
  }

  // ------------------------------------------------------------------ text length

  function Ten(n: nat): (r: nat)
    ensures r >= 1
  {
    if n == 0 then 1 else 10 * Ten(n - 1)
  }

  /** A number below a power of ten has no more digits than its exponent. */
  lemma {:induction false} TextLength(n: nat, k: nat)
    requires k >= 1 && n < Ten(k)
    ensures |NatText(n)| <= k
    decreases k
  {
    if n >= 10 {
      TextLength(n / 10, k - 1);
    }
  }

  lemma {:induction false} TenAdd(a: nat, b: nat)
    ensures Ten(a + b) == Ten(a) * Ten(b)
    decreases a
  {
    if a > 0 {
      TenAdd(a - 1, b);
      assert 10 * (Ten(a - 1) * Ten(b)) == Ten(a) * Ten(b);
    }
  }
}
