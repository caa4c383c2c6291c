/** Timestamps made of date digits (stock_tracker/collector/free_stockdb.py): their order is the
  numerical order of the digits. */
module DateDigits {
  import opened Prelude
  import opened Numerals
  import T = Timezones

  /** The value of a decimal digit of any script; `other` has those that are not ASCII. */
  function DigitOf(other: char -> Option<Digit>, c: char): Option<Digit> {
    if IsDigit(c) then Some(DigitValue(c)) else other(c)
  }

  /** A text of decimal digits in ASCII. `str.isdigit` also passes characters without a decimal
    value, which `int` then refuses. */
  function Ascii(other: char -> Option<Digit>, s: string): (r: Option<string>)
    ensures r.Some? ==> |r.value| == |s| && AllDigits(r.value)
    ensures r.Some? ==> forall i | 0 <= i < |s| :: DigitOf(other, s[i]) == Some(DigitValue(r.value[i]))
    ensures r.None? ==> exists i | 0 <= i < |s| :: DigitOf(other, s[i]).None?
  {
    if s == "" then Some("")
    else
      var first, rest := DigitOf(other, s[0]), Ascii(other, s[1..]);
      assert rest.None? ==> exists i | 0 <= i < |s[1..]| :: DigitOf(other, s[1..][i]).None? && s[1..][i] == s[i + 1];
      if first.None? || rest.None? then None else Some([DigitChar(first.value)] + rest.value)
  }

  /** `_timestamp_from_digits` of a text: `YYYYMMDD`, taken at 15:00, or `YYYYMMDDhhmmss`. */
  function Stamp(other: char -> Option<Digit>, s: string, daily: bool): Option<nat> {
    match Ascii(other, s)
    case None => None
    case Some(t) => AsciiStamp(t, daily)
  }

  function AsciiStamp(s: string, daily: bool): Option<nat>
    requires AllDigits(s)
  {
    if |s| != (if daily then 8 else 14) then None
    else
      var year, month, day := NatValue(s[..4]), NatValue(s[4..6]), NatValue(s[6..8]);
      if !IsDate(year, month, day) then None
      else if daily then Some(Seconds(T.Ordinal(year, month, day), 15, 0, 0))
      else
        var hour, minute, second := NatValue(s[8..10]), NatValue(s[10..12]), NatValue(s[12..14]);
        if hour > 23 || minute > 59 || second > 59 then None
        else Some(Seconds(T.Ordinal(year, month, day), hour, minute, second))
  }

  function Seconds(ordinal: nat, hour: nat, minute: nat, second: nat): nat {
    ((ordinal * 24 + hour) * 60 + minute) * 60 + second
  }

  predicate IsDate(year: nat, month: nat, day: nat) {
    year >= 1 && 1 <= month <= 12 && 1 <= day <= T.DaysInMonth(year, month)
  }

  // -------------------------------------------------------------------- digit fields

  /** The number two digits add to the digits before them. */
  lemma TwoMore(s: string, k: nat)
    requires k + 2 <= |s| && AllDigits(s)
    ensures AllDigits(s[..k]) && AllDigits(s[..k + 2]) && AllDigits(s[k..k + 2])
    ensures NatValue(s[k..k + 2]) < 100
    ensures NatValue(s[..k + 2]) == NatValue(s[..k]) * 100 + NatValue(s[k..k + 2])
  {
    var t, u := s[..k + 2], s[k..k + 2];
    assert t[..k + 1] == s[..k + 1] && s[..k + 1][..k] == s[..k];
    assert u[..1] == [s[k]] && [s[k]][..0] == "";
    assert NatValue(s[..k + 1]) == NatValue(s[..k]) * 10 + DigitValue(s[k]);
    assert NatValue([s[k]]) == DigitValue(s[k]);
  }

  function Date(year: nat, month: nat, day: nat): nat { (year * 100 + month) * 100 + day }

  function Time(date: nat, hour: nat, minute: nat, second: nat): nat {
    ((date * 100 + hour) * 100 + minute) * 100 + second
  }

  lemma DateValue(s: string)
    requires |s| >= 8 && AllDigits(s)
    ensures AllDigits(s[..8]) && AllDigits(s[..4]) && AllDigits(s[4..6]) && AllDigits(s[6..8])
    ensures NatValue(s[..8]) == Date(NatValue(s[..4]), NatValue(s[4..6]), NatValue(s[6..8]))
    ensures NatValue(s[..4]) < 10_000
  {
    TwoMore(s, 0);
    TwoMore(s, 2);
    TwoMore(s, 4);
    TwoMore(s, 6);
  }

  lemma TimeValue(s: string)
    requires |s| == 14 && AllDigits(s)
    ensures AllDigits(s) && AllDigits(s[..8]) && AllDigits(s[8..10]) && AllDigits(s[10..12]) && AllDigits(s[12..14])
    ensures NatValue(s) == Time(NatValue(s[..8]), NatValue(s[8..10]), NatValue(s[10..12]), NatValue(s[12..14]))
  {
    hide NatValue;
    TwoMore(s, 8);
    TwoMore(s, 10);
    TwoMore(s, 12);
    assert s[..14] == s;
  }

  lemma {:induction false} MonthsAscend(year: nat, m: nat, n: nat)
    requires 1 <= m < n <= 12
    ensures T.DaysBeforeMonth(year, m) + T.DaysInMonth(year, m) <= T.DaysBeforeMonth(year, n)
    decreases n - m
  {
    if m + 1 < n {
      MonthsAscend(year, m, n - 1);
    }
  }

  lemma InsideYear(year: nat, month: nat, day: nat)
    requires year >= 1 && 1 <= month <= 12 && 1 <= day <= T.DaysInMonth(year, month)
    ensures T.DaysBeforeYear(year) < T.Ordinal(year, month, day) <= T.DaysBeforeYear(year + 1)
  {
    if month < 12 {
      MonthsAscend(year, month, 12);
    }
    T.MonthStarts(year);
    T.YearLength(year);
  }

  lemma YearsOrder(y: nat, m: nat, d: nat, z: nat, n: nat, e: nat)
    requires IsDate(y, m, d) && IsDate(z, n, e) && y < z
    ensures T.Ordinal(y, m, d) < T.Ordinal(z, n, e)
  {
    hide T.Ordinal;
    InsideYear(y, m, d);
    InsideYear(z, n, e);
    T.YearsAscend(y + 1, z);
  }

  lemma MonthsOrder(y: nat, m: nat, d: nat, n: nat, e: nat)
    requires IsDate(y, m, d) && IsDate(y, n, e) && m < n
    ensures T.Ordinal(y, m, d) < T.Ordinal(y, n, e)
  {
    MonthsAscend(y, m, n);
  }

  lemma DateOrder(y: nat, m: nat, d: nat, z: nat, n: nat, e: nat)
    requires m < 100 && d < 100 && n < 100 && e < 100 && Date(y, m, d) < Date(z, n, e)
    ensures y < z || (y == z && (m < n || (m == n && d < e)))
  {
  }

  lemma DatesAscend(y: nat, m: nat, d: nat, z: nat, n: nat, e: nat)
    requires IsDate(y, m, d) && IsDate(z, n, e) && Date(y, m, d) < Date(z, n, e)
    ensures T.Ordinal(y, m, d) < T.Ordinal(z, n, e)
  {
    DateOrder(y, m, d, z, n, e);
    if y < z {
      YearsOrder(y, m, d, z, n, e);
    } else if m < n {
      MonthsOrder(y, m, d, n, e);
    }
  }

  lemma PairsAscend(x: nat, s: nat, y: nat, t: nat)
    requires s < 100 && t < 100 && x * 100 + s < y * 100 + t
    ensures x < y || (x == y && s < t)
  {
  }

  lemma TimesAscend(x: nat, h: nat, i: nat, s: nat, y: nat, j: nat, k: nat, t: nat)
    requires h < 24 && i < 60 && s < 60 && j < 24 && k < 60 && t < 60
    requires Time(x, h, i, s) < Time(y, j, k, t)
    ensures x <= y
    ensures x == y ==> Seconds(0, h, i, s) < Seconds(0, j, k, t)
  {
    PairsAscend((x * 100 + h) * 100 + i, s, (y * 100 + j) * 100 + k, t);
    if (x * 100 + h) * 100 + i < (y * 100 + j) * 100 + k {
      PairsAscend(x * 100 + h, i, y * 100 + j, k);
    }
  }

  lemma DaysDecide(a: nat, h: nat, i: nat, s: nat, b: nat, j: nat, k: nat, t: nat)
    requires h < 24 && i < 60 && s < 60 && j < 24 && k < 60 && t < 60
    requires a < b || (a == b && Seconds(0, h, i, s) < Seconds(0, j, k, t))
    ensures Seconds(a, h, i, s) < Seconds(b, j, k, t)
  {
  }

  /** The fields of an accepted date text. */
  lemma Parts(s: string, daily: bool) returns (y: nat, m: nat, d: nat, h: nat, i: nat, t: nat)
    requires AllDigits(s) && AsciiStamp(s, daily).Some?
    ensures IsDate(y, m, d) && y < 10_000 && h < 24 && i < 60 && t < 60 && (daily ==> h == 15 && i == 0 && t == 0)
    ensures AsciiStamp(s, daily).value == Seconds(T.Ordinal(y, m, d), h, i, t)
    ensures NatValue(s) == if daily then Date(y, m, d) else Time(Date(y, m, d), h, i, t)
  {
    y, m, d := NatValue(s[..4]), NatValue(s[4..6]), NatValue(s[6..8]);
    DateValue(s);
    if daily {
      h, i, t := 15, 0, 0;
      assert s[..8] == s;
    } else {
      h, i, t := NatValue(s[8..10]), NatValue(s[10..12]), NatValue(s[12..14]);
      TimeValue(s);
    }
  }

  /** Of two accepted date texts the smaller number is the earlier time. */
  lemma AsciiStampsAscend(a: string, b: string, daily: bool)
    requires AllDigits(a) && AllDigits(b) && AsciiStamp(a, daily).Some? && AsciiStamp(b, daily).Some?
    requires NatValue(a) < NatValue(b)
    ensures AsciiStamp(a, daily).value < AsciiStamp(b, daily).value
  {
    var y, m, d, h, i, s := Parts(a, daily);
    var z, n, e, j, k, t := Parts(b, daily);
    if !daily {
      TimesAscend(Date(y, m, d), h, i, s, Date(z, n, e), j, k, t);
    }
    if Date(y, m, d) < Date(z, n, e) {
      DatesAscend(y, m, d, z, n, e);
    } else {
      SameDate(y, m, d, z, n, e);
    }
    DaysDecide(T.Ordinal(y, m, d), h, i, s, T.Ordinal(z, n, e), j, k, t);
  }

  lemma SameDate(y: nat, m: nat, d: nat, z: nat, n: nat, e: nat)
    requires IsDate(y, m, d) && IsDate(z, n, e) && Date(y, m, d) == Date(z, n, e)
    ensures y == z && m == n && d == e
  {
  }

  lemma {:induction false} SameDigits(a: string, b: string)
    requires |a| == |b| && AllDigits(a) && AllDigits(b) && NatValue(a) == NatValue(b)
    ensures a == b
  {
    if a != "" {
      var n := |a| - 1;
      LastDigit(NatValue(a[..n]), DigitValue(a[n]), NatValue(b[..n]), DigitValue(b[n]));
      SameDigits(a[..n], b[..n]);
      SameChar(a[n], b[n]);
      assert a == a[..n] + [a[n]] && b == b[..n] + [b[n]];
    }
  }

  lemma LastDigit(x: nat, d: nat, y: nat, e: nat)
    requires d < 10 && e < 10 && x * 10 + d == y * 10 + e
    ensures x == y && d == e
  {
  }

  lemma SameChar(c: char, d: char)
    requires IsDigit(c) && IsDigit(d) && DigitValue(c) == DigitValue(d)
    ensures c == d
  {
  }

  /** The number a digit text stands for. */
  function Number(other: char -> Option<Digit>, s: string): nat
    requires Ascii(other, s).Some?
  {
    NatValue(Ascii(other, s).value)
  }

  /** Timestamps are ordered as the numbers their texts stand for, whatever the script, and two
    texts share a timestamp exactly when they show the same digit values. */
  lemma StampsAscend(other: char -> Option<Digit>, a: string, b: string, daily: bool)
    requires Stamp(other, a, daily).Some? && Stamp(other, b, daily).Some?
    ensures Stamp(other, a, daily).value < Stamp(other, b, daily).value <==> Number(other, a) < Number(other, b)
    ensures Stamp(other, a, daily) == Stamp(other, b, daily) <==> Ascii(other, a) == Ascii(other, b)
  {
    var x, y := Ascii(other, a).value, Ascii(other, b).value;
    if NatValue(x) < NatValue(y) {
      AsciiStampsAscend(x, y, daily);
    } else if NatValue(y) < NatValue(x) {
      AsciiStampsAscend(y, x, daily);
    } else {
      SameDigits(x, y);
    }
  }

  /** In ASCII, so, a duplicate timestamp is a duplicate date text. */
  lemma StampInjective(other: char -> Option<Digit>, a: string, b: string, daily: bool)
    requires Stamp(other, a, daily).Some? && Stamp(other, a, daily) == Stamp(other, b, daily)
    ensures Ascii(other, a) == Ascii(other, b)
    ensures AllDigits(a) && AllDigits(b) ==> a == b
  {
    StampsAscend(other, a, b, daily);
    if AllDigits(a) && AllDigits(b) {
      AsciiOfAscii(other, a);
      AsciiOfAscii(other, b);
    }
  }

  lemma {:induction false} AsciiIs(other: char -> Option<Digit>, s: string, t: string)
    requires |s| == |t| && AllDigits(t)
    requires forall i | 0 <= i < |s| :: DigitOf(other, s[i]) == Some(DigitValue(t[i]))
    ensures Ascii(other, s) == Some(t)
  {
    if s != "" {
      AsciiIs(other, s[1..], t[1..]);
      SameChar(DigitChar(DigitValue(t[0])), t[0]);
      assert t == [t[0]] + t[1..];
    }
  }

  lemma AsciiOfAscii(other: char -> Option<Digit>, s: string)
    requires AllDigits(s)
    ensures Ascii(other, s) == Some(s)
  {
    AsciiIs(other, s, s);
  }

  /** The full-width digit, U+FF10 to U+FF19. */
  function FullWidth(d: Digit): (c: char)
    ensures !IsDigit(c)
  {
    (0xFF10 + d) as char
  }

  function Wide(s: string): (r: string)
    requires AllDigits(s)
    ensures |r| == |s| && forall i | 0 <= i < |s| :: r[i] == FullWidth(DigitValue(s[i]))
  {
    seq(|s|, i requires 0 <= i < |s| => FullWidth(DigitValue(s[i])))
  }

  /** Not so across scripts: an accepted date in ASCII and the same date in full-width digits are
    two accepted texts with one timestamp. */
  lemma FullWidthDuplicate(other: char -> Option<Digit>, s: string, daily: bool)
    requires forall d: Digit :: other(FullWidth(d)) == Some(d)
    requires AllDigits(s) && AsciiStamp(s, daily).Some?
    ensures Wide(s) != s && Stamp(other, Wide(s), daily) == Stamp(other, s, daily) == AsciiStamp(s, daily)
  {
    AsciiOfAscii(other, s);
    AsciiIs(other, Wide(s), s);
    assert Wide(s)[0] != s[0];
  }
}
