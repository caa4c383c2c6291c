/** Timestamps printed as the date digits that read back as them. */
module DatePrinting {
  import opened Prelude
  import opened Numerals
  import opened DateDigits
  import T = Timezones

  const LAST_ORDINAL := 3_652_059

  function Two(n: nat): (s: string)
    requires n < 100
    ensures |s| == 2 && AllDigits(s)
  {
    [DigitChar(n / 10), DigitChar(n % 10)]
  }

  lemma TwoValue(n: nat)
    requires n < 100
    ensures NatValue(Two(n)) == n
  {
    var s := Two(n);
    assert s[..1] == [s[0]] && [s[0]][..0] == "";
    assert NatValue([s[0]]) == n / 10;
  }

  lemma PairValue(n: nat)
    requires n < 10_000
    ensures NatValue(Two(n / 100) + Two(n % 100)) == n
  {
    var s := Two(n / 100) + Two(n % 100);
    TwoMore(s, 2);
    assert s[..2] == Two(n / 100) && s[2..4] == Two(n % 100) && s[..4] == s;
    TwoValue(n / 100);
    TwoValue(n % 100);
  }

  // ---------------------------------------------------------------- the date of a day

  /** The month of a day of the year, counted from 1. */
  function MonthOf(year: nat, rest: nat, month: nat): (m: nat)
    requires 1 <= month <= 12 && T.DaysBeforeMonth(year, month) < rest
    ensures month <= m <= 12 && T.DaysBeforeMonth(year, m) < rest
    ensures m < 12 ==> rest <= T.DaysBeforeMonth(year, m) + T.DaysInMonth(year, m)
    decreases 12 - month
  {
    if month == 12 || rest <= T.DaysBeforeMonth(year, month) + T.DaysInMonth(year, month) then month
    else MonthOf(year, rest, month + 1)
  }

  /** The date of an ordinal day. */
  function DateOf(ordinal: nat): (nat, nat, nat)
    requires 1 <= ordinal <= LAST_ORDINAL
  {
    var year := T.YearOf(ordinal);
    var rest := ordinal - T.DaysBeforeYear(year);
    var month := MonthOf(year, rest, 1);
    (year, month, rest - T.DaysBeforeMonth(year, month))
  }

  lemma DateOfOrdinal(ordinal: nat)
    requires 1 <= ordinal <= LAST_ORDINAL
    ensures var (y, m, d) := DateOf(ordinal);
            IsDate(y, m, d) && y <= 9999 && T.Ordinal(y, m, d) == ordinal
  {
    var y := T.YearOf(ordinal);
    assert T.DaysBeforeYear(10_000) == LAST_ORDINAL;
    if y >= 10_000 {
      T.YearsAscend(10_000, y);
    }
    T.YearLength(y);
    T.MonthStarts(y);
    assert T.DaysBeforeMonth(y, 12) == T.DaysBeforeMonth(y, 11) + 30;
  }

  // --------------------------------------------------------------------- the printed text

  function DateText(y: nat, m: nat, d: nat): (s: string)
    requires y < 10_000 && m < 100 && d < 100
    ensures |s| == 8 && AllDigits(s)
  {
    Two(y / 100) + Two(y % 100) + Two(m) + Two(d)
  }

  function TimeText(h: nat, i: nat, t: nat): (s: string)
    requires h < 100 && i < 100 && t < 100
    ensures |s| == 6 && AllDigits(s)
  {
    Two(h) + Two(i) + Two(t)
  }

  lemma DateTextFields(y: nat, m: nat, d: nat, rest: string)
    requires y < 10_000 && m < 100 && d < 100 && AllDigits(rest)
    ensures var s := DateText(y, m, d) + rest;
            NatValue(s[..4]) == y && NatValue(s[4..6]) == m && NatValue(s[6..8]) == d
  {
    var s := DateText(y, m, d) + rest;
    assert s[..4] == Two(y / 100) + Two(y % 100) && s[4..6] == Two(m) && s[6..8] == Two(d);
    PairValue(y);
    TwoValue(m);
    TwoValue(d);
  }

  lemma TimeTextFields(date: string, h: nat, i: nat, t: nat)
    requires |date| == 8 && AllDigits(date) && h < 100 && i < 100 && t < 100
    ensures var s := date + TimeText(h, i, t);
            NatValue(s[8..10]) == h && NatValue(s[10..12]) == i && NatValue(s[12..14]) == t
  {
    var s := date + TimeText(h, i, t);
    assert s[8..10] == Two(h) && s[10..12] == Two(i) && s[12..14] == Two(t);
    TwoValue(h);
    TwoValue(i);
    TwoValue(t);
  }

  /** What a timestamp can be: an instant of years 1 to 9999, at 15:00 for a daily bar. */
  predicate Printable(t: int, daily: bool) {
    86_400 <= t < (LAST_ORDINAL + 1) * 86_400 && (daily ==> t % 86_400 == 54_000)
  }

  function StampText(t: int, daily: bool): (s: string)
    requires Printable(t, daily)
    ensures AllDigits(s)
  {
    DateOfOrdinal(t / 86_400);
    var (y, m, d) := DateOf(t / 86_400);
    var rest := t % 86_400;
    DateText(y, m, d) + if daily then "" else TimeText(rest / 3600, rest / 60 % 60, rest % 60)
  }

  lemma ClockSplit(t: nat)
    ensures var rest := t % 86_400;
            Seconds(t / 86_400, rest / 3600, rest / 60 % 60, rest % 60) == t && rest / 3600 < 24
  {
    var rest := t % 86_400;
    assert rest == rest / 60 * 60 + rest % 60;
    assert rest / 60 == rest / 3600 * 60 + rest / 60 % 60;
  }

  lemma DailyReadsBack(y: nat, m: nat, d: nat)
    requires IsDate(y, m, d) && y < 10_000
    ensures AsciiStamp(DateText(y, m, d), true) == Some(Seconds(T.Ordinal(y, m, d), 15, 0, 0))
  {
    hide T.Ordinal, Seconds, DateText, Two;
    DateTextFields(y, m, d, "");
    assert DateText(y, m, d) + "" == DateText(y, m, d);
  }

  lemma MinuteReadsBack(y: nat, m: nat, d: nat, h: nat, i: nat, x: nat)
    requires IsDate(y, m, d) && y < 10_000 && h < 24 && i < 60 && x < 60
    ensures AsciiStamp(DateText(y, m, d) + TimeText(h, i, x), false) == Some(Seconds(T.Ordinal(y, m, d), h, i, x))
  {
    hide T.Ordinal, Seconds, DateText, TimeText, Two;
    DateTextFields(y, m, d, TimeText(h, i, x));
    TimeTextFields(DateText(y, m, d), h, i, x);
  }

  /** The fields a timestamp is printed from. */
  lemma StampFields(t: int, daily: bool) returns (y: nat, m: nat, d: nat, h: nat, i: nat, x: nat)
    requires Printable(t, daily)
    ensures IsDate(y, m, d) && y < 10_000 && h < 24 && i < 60 && x < 60
    ensures StampText(t, daily) == DateText(y, m, d) + if daily then "" else TimeText(h, i, x)
    ensures t == Seconds(T.Ordinal(y, m, d), h, i, x) && (daily ==> h == 15 && i == 0 && x == 0)
  {
    hide T.Ordinal, DateText, TimeText;
    DateOfOrdinal(t / 86_400);
    var date := DateOf(t / 86_400);
    y, m, d := date.0, date.1, date.2;
    h, i, x := t % 86_400 / 3600, t % 86_400 / 60 % 60, t % 86_400 % 60;
    ClockSplit(t);
  }

  /** Reading undoes printing. */
  lemma StampReadsBack(t: int, daily: bool)
    requires Printable(t, daily)
    ensures AsciiStamp(StampText(t, daily), daily) == Some(t)
  {
    hide AsciiStamp, StampText, DateText, TimeText, T.Ordinal, Seconds, Printable;
    var y, m, d, h, i, x := StampFields(t, daily);
    if daily {
      DailyReadsBack(y, m, d);
      assert DateText(y, m, d) + "" == DateText(y, m, d);
    } else {
      MinuteReadsBack(y, m, d, h, i, x);
    }
  }

  lemma OrdinalInRange(y: nat, m: nat, d: nat)
    requires IsDate(y, m, d) && y < 10_000
    ensures 1 <= T.Ordinal(y, m, d) <= LAST_ORDINAL
  {
    InsideYear(y, m, d);
    T.YearsAscend(y + 1, 10_000);
    assert T.DaysBeforeYear(10_000) == LAST_ORDINAL;
  }

  lemma SecondsSplit(ordinal: nat, h: nat, i: nat, x: nat)
    requires h < 24 && i < 60 && x < 60
    ensures Seconds(ordinal, h, i, x) == ordinal * 86_400 + (h * 3600 + i * 60 + x)
    ensures Seconds(ordinal, h, i, x) / 86_400 == ordinal && Seconds(ordinal, h, i, x) % 86_400 == h * 3600 + i * 60 + x
  {
  }

  lemma SameStampSameText(a: string, b: string, daily: bool)
    requires AllDigits(a) && AllDigits(b) && AsciiStamp(a, daily).Some? && AsciiStamp(a, daily) == AsciiStamp(b, daily)
    ensures a == b
  {
    var other: char -> Option<Digit> := c => None;
    AsciiOfAscii(other, a);
    AsciiOfAscii(other, b);
    StampInjective(other, a, b, daily);
  }

  /** And printing undoes reading: the accepted ASCII texts are exactly the printed ones. */
  lemma StampPrintable(s: string, daily: bool)
    requires AllDigits(s) && AsciiStamp(s, daily).Some?
    ensures Printable(AsciiStamp(s, daily).value, daily)
    ensures StampText(AsciiStamp(s, daily).value, daily) == s
  {
    var t := AsciiStamp(s, daily).value;
    var y, m, d, h, i, x := Parts(s, daily);
    OrdinalInRange(y, m, d);
    SecondsSplit(T.Ordinal(y, m, d), h, i, x);
    StampReadsBack(t, daily);
    SameStampSameText(s, StampText(t, daily), daily);
  }
}
