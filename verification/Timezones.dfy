/** The deterministic US/Eastern fallback (stock_tracker/core/timezones.py) on the proleptic
  Gregorian calendar. Instants and wall clocks are microseconds; day 1 is 0001-01-01. */
module Timezones {

  /** An instant or clock reading: an hour of a day, then microseconds. */
  function Clock(day: int, hour: int): int { day * 86_400_000_000 + hour * 3_600_000_000 }

  // -------------------------------------------------------------------- the calendar

  predicate Leap(year: nat) { year % 4 == 0 && (year % 100 != 0 || year % 400 == 0) }

  /** Days before 1 January of `year`. */
  function DaysBeforeYear(year: nat): nat
    requires year >= 1
  {
    var y := year - 1;
    365 * y + y / 4 - y / 100 + y / 400
  }

  function DaysInMonth(year: nat, month: nat): nat
    requires 1 <= month <= 12
  {
    if month == 2 then (if Leap(year) then 29 else 28)
    else if month in {4, 6, 9, 11} then 30 else 31
  }

  function DaysBeforeMonth(year: nat, month: nat): nat
    requires 1 <= month <= 12
    decreases month
  {
    if month == 1 then 0 else DaysBeforeMonth(year, month - 1) + DaysInMonth(year, month - 1)
  }

  /** `date(year, month, day).toordinal()`. */
  function Ordinal(year: nat, month: nat, day: nat): nat
    requires year >= 1 && 1 <= month <= 12 && 1 <= day <= DaysInMonth(year, month)
  {
    DaysBeforeYear(year) + DaysBeforeMonth(year, month) + day
  }

  /** `date.weekday()`: Monday is 0. */
  function Weekday(ordinal: nat): nat { (ordinal + 6) % 7 }

  lemma YearLength(year: nat)
    requires year >= 1
    ensures DaysBeforeYear(year + 1) - DaysBeforeYear(year) == if Leap(year) then 366 else 365
  {
    Quarter(year);
    Century(year);
    FourCenturies(year);
    Multiples(year);
  }

  lemma Quarter(year: nat)
    requires year >= 1
    ensures year / 4 - (year - 1) / 4 == if year % 4 == 0 then 1 else 0
  {
  }

  lemma Century(year: nat)
    requires year >= 1
    ensures year / 100 - (year - 1) / 100 == if year % 100 == 0 then 1 else 0
  {
    Hundreds(year);
    Hundreds(year - 1);
  }

  lemma Hundreds(n: nat)
    ensures n == 100 * (n / 100) + n % 100 && 0 <= n % 100 < 100
  {
  }

  lemma FourCenturies(year: nat)
    requires year >= 1
    ensures year / 400 - (year - 1) / 400 == if year % 400 == 0 then 1 else 0
  {
    FourHundreds(year);
    FourHundreds(year - 1);
  }

  lemma FourHundreds(n: nat)
    ensures n == 400 * (n / 400) + n % 400 && 0 <= n % 400 < 400
  {
  }

  lemma Multiples(year: nat)
    ensures year % 100 == 0 ==> year % 4 == 0
    ensures year % 400 == 0 ==> year % 100 == 0
  {
    if year % 100 == 0 {
      Hundreds(year);
      TimesFour(25 * (year / 100));
    }
    if year % 400 == 0 {
      FourHundreds(year);
      TimesHundred(4 * (year / 400));
    }
  }

  lemma TimesFour(k: nat)
    ensures 4 * k % 4 == 0
  {
  }

  lemma TimesHundred(k: nat)
    ensures 100 * k % 100 == 0
  {
  }

  /** The year that contains a day. */
  function YearOf(ordinal: nat): (year: nat)
    requires ordinal >= 1
    ensures year >= 1 && DaysBeforeYear(year) < ordinal <= DaysBeforeYear(year + 1)
  {
    YearFrom(ordinal, 1)
  }

  function YearFrom(ordinal: nat, year: nat): (r: nat)
    requires year >= 1 && DaysBeforeYear(year) < ordinal
    ensures r >= year && DaysBeforeYear(r) < ordinal <= DaysBeforeYear(r + 1)
    decreases ordinal - DaysBeforeYear(year)
  {
    YearLength(year);
    if ordinal <= DaysBeforeYear(year + 1) then year else YearFrom(ordinal, year + 1)
  }

  lemma {:induction false} YearsAscend(a: nat, b: nat)
    requires 1 <= a <= b
    ensures DaysBeforeYear(a) <= DaysBeforeYear(b)
    decreases b - a
  {
    if a < b {
      YearLength(b - 1);
      YearsAscend(a, b - 1);
    }
  }

  lemma YearUnique(ordinal: nat, year: nat)
    requires year >= 1 && DaysBeforeYear(year) < ordinal <= DaysBeforeYear(year + 1)
    ensures YearOf(ordinal) == year
  {
    var y := YearOf(ordinal);
    if y < year {
      YearsAscend(y + 1, year);
    } else if year < y {
      YearsAscend(year + 1, y);
    }
  }

  // ------------------------------------------------------------- transition dates

  /** `_first_weekday_date`, as an ordinal. */
  function FirstWeekday(year: nat, month: nat, weekday: nat): nat
    requires year >= 1 && 1 <= month <= 12
  {
    var first := Ordinal(year, month, 1);
    first + (weekday - Weekday(first)) % 7
  }

  /** It is the only day with that weekday among the first seven of the month. */
  lemma FirstWeekdayIsFirst(year: nat, month: nat, weekday: nat, n: nat)
    requires year >= 1 && 1 <= month <= 12 && weekday < 7
    requires Ordinal(year, month, 1) <= n < Ordinal(year, month, 1) + 7
    ensures Weekday(n) == weekday <==> n == FirstWeekday(year, month, weekday)
  {
    hide Ordinal;
    var first := Ordinal(year, month, 1);
    WeekdayShift(first, n - first);
    WeekdayShift(first, (weekday - Weekday(first)) % 7);
  }

  lemma WeekdayShift(n: nat, k: nat)
    requires k < 7
    ensures Weekday(n + k) == if Weekday(n) + k < 7 then Weekday(n) + k else Weekday(n) + k - 7
  {
    var q := (n + 6) / 7;
    assert n + 6 == 7 * q + Weekday(n);
    assert n + k + 6 == 7 * q + (Weekday(n) + k);
  }

  /** `_us_eastern_transition_dates`: second Sunday of March, first Sunday of November. */
  function Transitions(year: nat): (nat, nat)
    requires year >= 1
  {
    (FirstWeekday(year, 3, 6) + 7, FirstWeekday(year, 11, 6))
  }

  lemma TransitionsInside(year: nat)
    requires year >= 1
    ensures var (s, e) := Transitions(year);
            DaysBeforeYear(year) + 66 < s < e - 200 && e < DaysBeforeYear(year + 1) - 50
  {
    YearLength(year);
    MonthStarts(year);
  }

  lemma MonthStarts(year: nat)
    ensures DaysBeforeMonth(year, 3) == if Leap(year) then 60 else 59
    ensures DaysBeforeMonth(year, 11) == if Leap(year) then 305 else 304
  {
    assert DaysBeforeMonth(year, 2) == 31;
    assert DaysBeforeMonth(year, 4) == DaysBeforeMonth(year, 3) + 31;
    assert DaysBeforeMonth(year, 5) == DaysBeforeMonth(year, 4) + 30;
    assert DaysBeforeMonth(year, 6) == DaysBeforeMonth(year, 5) + 31;
    assert DaysBeforeMonth(year, 7) == DaysBeforeMonth(year, 6) + 30;
    assert DaysBeforeMonth(year, 8) == DaysBeforeMonth(year, 7) + 31;
    assert DaysBeforeMonth(year, 9) == DaysBeforeMonth(year, 8) + 31;
    assert DaysBeforeMonth(year, 10) == DaysBeforeMonth(year, 9) + 30;
  }

  // ---------------------------------------------------------------------- offsets

  /** The day of a clock reading, and its whole hour. */
  function DayOf(t: nat): nat { t / 86_400_000_000 }

  function HourOf(t: nat): nat { (t % 86_400_000_000) / 3_600_000_000 }

  /** `_us_eastern_offset_for_local`, in hours; `fold` is the PEP 495 flag. */
  function OffsetForLocal(local: nat, fold: bool): (o: int)
    requires DayOf(local) >= 1
    ensures o == -4 || o == -5
  {
    var (start, end) := Transitions(YearOf(DayOf(local)));
    OffsetBetween(DayOf(local), HourOf(local), fold, start, end)
  }

  function OffsetBetween(day: nat, hour: nat, fold: bool, start: nat, end: nat): (o: int)
    ensures o == -4 || o == -5
  {
    if day < start || day > end then -5
    else if start < day < end then -4
    else if day == start then (if hour < 2 then -5 else -4)
    else if hour < 1 then -4
    else if hour >= 2 then -5
    else if fold then -5 else -4
  }

  /** `_us_eastern_offset_for_utc`, in hours. */
  function OffsetForUtc(utc: nat): (o: int)
    requires DayOf(utc) >= 1
    ensures o == -4 || o == -5
  {
    var (start, end) := Transitions(YearOf(DayOf(utc)));
    if Clock(start, 7) <= utc < Clock(end, 6) then -4 else -5
  }

  /** `utc_to_market_local` in the fallback; earlier instants have no wall clock in year 1. */
  function ToLocal(utc: nat): (local: nat)
    requires utc >= Clock(1, 5)
    ensures local >= Clock(1, 0)
  {
    utc + Clock(0, OffsetForUtc(utc))
  }

  /** `market_local_to_utc` in the fallback. */
  function ToUtc(local: nat, fold: bool): (utc: nat)
    requires local >= Clock(1, 0)
    ensures utc >= local
  {
    local - Clock(0, OffsetForLocal(local, fold))
  }

  /** The second pass of the repeated hour: the wall clock has read this hour once already. */
  predicate SecondPass(utc: nat)
    requires DayOf(utc) >= 1
  {
    var (_, end) := Transitions(YearOf(DayOf(utc)));
    Clock(end, 6) <= utc < Clock(end, 7)
  }

  /** The hour that the March transition jumps over. */
  predicate Skipped(local: nat)
    requires DayOf(local) >= 1
  {
    DayOf(local) == Transitions(YearOf(DayOf(local))).0 && HourOf(local) == 2
  }

  /** The hour that the November transition repeats. */
  predicate Repeated(local: nat)
    requires DayOf(local) >= 1
  {
    DayOf(local) == Transitions(YearOf(DayOf(local))).1 && HourOf(local) == 1
  }

  /** A day near `n` lies in the same year, or across a new year that is far from both transitions. */
  lemma ShiftedYear(n: nat, m: nat)
    requires n >= 1 && m >= 1 && n <= m <= n + 1
    ensures YearOf(m) == YearOf(n) || (YearOf(m) == YearOf(n) + 1 && n == DaysBeforeYear(YearOf(m)) && m == n + 1)
  {
    var y := YearOf(n);
    if m <= DaysBeforeYear(y + 1) {
      YearUnique(m, y);
    } else {
      YearLength(y + 1);
      YearUnique(m, y + 1);
    }
  }

  /** A clock reading as day, hour and the rest of the hour. */
  lemma Split(t: nat) returns (rest: nat)
    ensures t == Clock(DayOf(t), HourOf(t)) + rest && rest < 3_600_000_000 && HourOf(t) < 24
  {
    rest := (t % 86_400_000_000) % 3_600_000_000;
  }

  lemma Joined(day: nat, hour: nat, rest: nat)
    requires hour < 24 && rest < 3_600_000_000
    ensures var t := Clock(day, hour) + rest; t >= 0 && DayOf(t) == day && HourOf(t) == hour
  {
    var t := Clock(day, hour) + rest;
    assert t % 86_400_000_000 == hour * 3_600_000_000 + rest;
  }

  /** Comparing with a whole hour looks at day and hour only. */
  lemma Compare(t: nat, day: nat, hour: nat)
    requires hour < 24
    ensures Clock(day, hour) <= t <==> Reached(DayOf(t), HourOf(t), day, hour)
  {
    var rest := Split(t);
  }

  lemma UtcByHours(utc: nat)
    requires DayOf(utc) >= 1
    ensures var (start, end) := Transitions(YearOf(DayOf(utc)));
            && OffsetForUtc(utc) == UtcBetween(DayOf(utc), HourOf(utc), start, end)
            && (SecondPass(utc)
                <==> Reached(DayOf(utc), HourOf(utc), end, 6) && !Reached(DayOf(utc), HourOf(utc), end, 7))
  {
    var (start, end) := Transitions(YearOf(DayOf(utc)));
    Compare(utc, start, 7);
    Compare(utc, end, 6);
    Compare(utc, end, 7);
  }

  /** Moving a reading by a few hours. */
  lemma Moved(t: nat, hours: int)
    requires -6 < hours < 6 && (DayOf(t) >= 1 || hours >= 0)
    ensures var m := t + Clock(0, hours); var h := HourOf(t) + hours;
            && m >= 0
            && DayOf(m) == DayOf(t) + (if h < 0 then -1 else if h >= 24 then 1 else 0)
            && HourOf(m) == h + (if h < 0 then 24 else if h >= 24 then -24 else 0)
  {
    var rest := Split(t);
    var day, h := DayOf(t), HourOf(t) + hours;
    if h < 0 { Joined(day - 1, h + 24, rest); }
    else if h >= 24 { Joined(day + 1, h - 24, rest); }
    else { Joined(day, h, rest); }
  }

  predicate Reached(day: nat, hour: nat, d: nat, h: nat) { day > d || (day == d && hour >= h) }

  /** The UTC-side rule by day and hour. */
  function UtcBetween(day: nat, hour: nat, start: nat, end: nat): int {
    if Reached(day, hour, start, 7) && !Reached(day, hour, end, 6) then -4 else -5
  }

  /** Within one year the two rules are inverse to each other, the skipped hour excepted. */
  lemma Inverse(day: nat, hour: nat, d: nat, h: nat, o: int, fold: bool, start: nat, end: nat)
    requires o in {-4, -5} && hour < 24 && h < 24 && start + 1 < end
    requires d * 24 + h == day * 24 + hour + o
    ensures var second := Reached(day, hour, end, 6) && !Reached(day, hour, end, 7);
            && (o == UtcBetween(day, hour, start, end) ==>
                  && OffsetBetween(d, h, second, start, end) == o && !(d == start && h == 2)
                  && (second ==> d == end && h == 1))
            && (o == OffsetBetween(d, h, fold, start, end) ==>
                  && (UtcBetween(day, hour, start, end) == o <==> !(d == start && h == 2))
                  && (d == end && h == 1 ==> (second <==> fold)))
  {
  }

  /** A wall clock behind its UTC instant shares its year, or both lie at a new year, far from
    the transitions of either year. */
  lemma NearYears(local: nat, utc: nat)
    requires 1 <= DayOf(local) <= DayOf(utc) <= DayOf(local) + 1
    ensures var (s1, e1) := Transitions(YearOf(DayOf(local)));
            var (s2, e2) := Transitions(YearOf(DayOf(utc)));
            && s1 + 1 < e1 && s2 + 1 < e2
            && (YearOf(DayOf(local)) == YearOf(DayOf(utc)) || (e1 < DayOf(local) && DayOf(utc) < s2))
  {
    ShiftedYear(DayOf(local), DayOf(utc));
    TransitionsInside(YearOf(DayOf(utc)));
    TransitionsInside(YearOf(DayOf(local)));
  }

  /** From UTC to the wall clock and back: the two functions agree in every year, when `fold` is
    set exactly in the second pass of the repeated hour. */
  lemma UtcRoundTrip(utc: nat)
    requires utc >= Clock(1, 5)
    ensures OffsetForLocal(ToLocal(utc), SecondPass(utc)) == OffsetForUtc(utc)
    ensures ToUtc(ToLocal(utc), SecondPass(utc)) == utc
    ensures !Skipped(ToLocal(utc)) && (SecondPass(utc) ==> Repeated(ToLocal(utc)))
  {
    hide YearOf, Transitions;
    var o, local := OffsetForUtc(utc), ToLocal(utc);
    Moved(utc, o);
    UtcByHours(utc);
    NearYears(local, utc);
    var (start, end) := Transitions(YearOf(DayOf(utc)));
    if YearOf(DayOf(local)) == YearOf(DayOf(utc)) {
      Inverse(DayOf(utc), HourOf(utc), DayOf(local), HourOf(local), o, true, start, end);
    }
  }

  /** From the wall clock to UTC and back: every reading survives, except exactly those in the
    hour that the March transition skips. */
  lemma LocalRoundTrip(local: nat, fold: bool)
    requires local >= Clock(1, 0)
    ensures OffsetForUtc(ToUtc(local, fold)) == OffsetForLocal(local, fold) <==> !Skipped(local)
    ensures ToLocal(ToUtc(local, fold)) == local <==> !Skipped(local)
    ensures Repeated(local) ==> (SecondPass(ToUtc(local, fold)) <==> fold)
  {
    var o, utc := OffsetForLocal(local, fold), ToUtc(local, fold);
    Moved(local, -o);
    UtcByHours(utc);
    NearYears(local, utc);
    var (start, end) := Transitions(YearOf(DayOf(utc)));
    if YearOf(DayOf(local)) == YearOf(DayOf(utc)) {
      Inverse(DayOf(utc), HourOf(utc), DayOf(local), HourOf(local), o, fold, start, end);
    }
  }

  // ------------------------------------------------------------- anchored in the calendar

  /** Day 1 is a Monday, and the weekdays follow each other. */
  lemma WeekdaysFollow(n: nat)
    requires n >= 1
    ensures Weekday(1) == 0
    ensures Weekday(n + 1) == if Weekday(n) == 6 then 0 else Weekday(n) + 1
  {
    WeekdayShift(n, 1);
  }

  /** The days before a month by the arithmetic rule that knows no table of month lengths. */
  lemma MonthsByRule(year: nat, month: nat)
    requires 1 <= month <= 12
    ensures DaysBeforeMonth(year, month)
            == (367 * month - 362) / 12 - (if month <= 2 then 0 else if Leap(year) then 1 else 2)
    ensures DaysBeforeMonth(year, 12) + 31 == if Leap(year) then 366 else 365
  {
    MonthStarts(year);
    assert DaysBeforeMonth(year, 12) == DaysBeforeMonth(year, 11) + 30;
  }

  /** The years run on without a gap from 1 January of year 1. */
  lemma YearsRunOn(year: nat)
    requires year >= 1
    ensures Ordinal(year + 1, 1, 1) == Ordinal(year, 12, 31) + 1
  {
    hide Leap;
    YearLength(year);
    MonthsByRule(year, 12);
  }

  /** A leap year every four years, except three centuries in four. */
  lemma YearsByRule(year: nat)
    requires year >= 1
    ensures DaysBeforeYear(1) == 0
    ensures DaysBeforeYear(year + 1) - DaysBeforeYear(year)
            == if year % 400 == 0 || (year % 4 == 0 && year % 100 != 0) then 366 else 365
  {
    hide DaysBeforeYear;
    FirstYear();
    YearLength(year);
    Multiples(year);
  }

  lemma FirstYear()
    ensures DaysBeforeYear(1) == 0
  {
  }

  /** Two days everybody knows: 1 January 1970 was a Thursday and 29 February 2000 a Tuesday. */
  lemma KnownDays()
    ensures Ordinal(1970, 1, 1) == 719_163 && Weekday(Ordinal(1970, 1, 1)) == 3
    ensures DaysInMonth(2000, 2) == 29 && Ordinal(2000, 2, 29) == 730_179 && Weekday(Ordinal(2000, 2, 29)) == 1
  {
    assert DaysBeforeMonth(2000, 2) == 31;
  }

  /** The second Sunday of March and the first Sunday of November. */
  ghost predicate TransitionDays(year: nat, n: nat, m: nat)
    requires year >= 1
  {
    && Weekday(n) == 6 && Ordinal(year, 3, 8) <= n <= Ordinal(year, 3, 14)
    && Weekday(m) == 6 && Ordinal(year, 11, 1) <= m <= Ordinal(year, 11, 7)
  }

  lemma DayShift(year: nat, month: nat, day: nat)
    requires year >= 1 && 1 <= month <= 12 && 1 <= day <= 28
    ensures Ordinal(year, month, day) == Ordinal(year, month, 1) + day - 1
  {
  }

  lemma WeekShift(n: nat)
    ensures Weekday(n + 7) == Weekday(n)
  {
    WeekdayShift(n, 6);
    WeekdayShift(n + 6, 1);
  }

  lemma TransitionsAnchored(year: nat, n: nat, m: nat)
    requires year >= 1 && TransitionDays(year, n, m)
    ensures Transitions(year) == (n, m)
  {
    hide Ordinal, Weekday, FirstWeekday;
    DayShift(year, 3, 8);
    DayShift(year, 3, 14);
    DayShift(year, 11, 7);
    WeekShift(n - 7);
    FirstWeekdayIsFirst(year, 3, 6, n - 7);
    FirstWeekdayIsFirst(year, 11, 6, m);
  }

  /** The days of a year. */
  lemma InYear(year: nat, day: nat)
    requires year >= 1 && Ordinal(year, 1, 1) <= day <= Ordinal(year, 12, 31)
    ensures YearOf(day) == year
  {
    YearLength(year);
    MonthsByRule(year, 12);
    YearUnique(day, year);
  }

  /** The rule of US/Eastern on the UTC side: summer time from 7:00 on the second Sunday of March to
    6:00 on the first Sunday of November, in every year. */
  lemma SummerTimeByUtc(year: nat, n: nat, m: nat, utc: nat)
    requires year >= 1 && TransitionDays(year, n, m)
    requires Clock(Ordinal(year, 1, 1), 0) <= utc < Clock(Ordinal(year, 12, 31) + 1, 0)
    ensures OffsetForUtc(utc) == if Clock(n, 7) <= utc < Clock(m, 6) then -4 else -5
  {
    hide Ordinal, Transitions, YearOf;
    DayInside(utc, Ordinal(year, 1, 1), Ordinal(year, 12, 31));
    InYear(year, DayOf(utc));
    TransitionsAnchored(year, n, m);
  }

  lemma DayInside(t: nat, first: nat, last: nat)
    requires Clock(first, 0) <= t < Clock(last + 1, 0)
    ensures first <= DayOf(t) <= last
  {
  }

  /** And on the local side: from 2:00 on the second Sunday of March to 2:00 on the first Sunday of
    November, whose hour from 1:00 to 2:00 is summer time in its first pass. */
  lemma SummerTimeByLocal(year: nat, n: nat, m: nat, local: nat, fold: bool)
    requires year >= 1 && TransitionDays(year, n, m)
    requires Clock(Ordinal(year, 1, 1), 0) <= local < Clock(Ordinal(year, 12, 31) + 1, 0)
    ensures OffsetForLocal(local, fold)
            == if Clock(n, 2) <= local < Clock(m, 1) || (Clock(m, 1) <= local < Clock(m, 2) && !fold) then -4 else -5
  {
    hide Ordinal, Transitions, YearOf;
    DayInside(local, Ordinal(year, 1, 1), Ordinal(year, 12, 31));
    InYear(year, DayOf(local));
    TransitionsAnchored(year, n, m);
    TransitionsApart(year, n, m);
    Compare(local, n, 2);
    Compare(local, m, 1);
    Compare(local, m, 2);
  }

  lemma TransitionsApart(year: nat, n: nat, m: nat)
    requires year >= 1 && TransitionDays(year, n, m)
    ensures n < m
  {
    MonthStarts(year);
  }

  /** The days are there in every year. */
  lemma TransitionDaysExist(year: nat)
    requires year >= 1
    ensures TransitionDays(year, Transitions(year).0, Transitions(year).1)
  {
    hide Ordinal, Weekday, FirstWeekday;
    SundayWithin(year, 3);
    SundayWithin(year, 11);
    WeekShift(FirstWeekday(year, 3, 6));
    DayShift(year, 3, 8);
    DayShift(year, 3, 14);
    DayShift(year, 11, 7);
  }

  lemma SundayWithin(year: nat, month: nat)
    requires year >= 1 && 1 <= month <= 12
    ensures var n := FirstWeekday(year, month, 6);
            Ordinal(year, month, 1) <= n < Ordinal(year, month, 1) + 7 && Weekday(n) == 6
  {
    hide Ordinal;
    WeekdayShift(Ordinal(year, month, 1), (6 - Weekday(Ordinal(year, month, 1))) % 7);
  }

  /** In 2024 they were 10 March and 3 November. */
  lemma Transitions2024()
    ensures Transitions(2024) == (738_955, 739_193)
    ensures Ordinal(2024, 3, 10) == 738_955 && Ordinal(2024, 11, 3) == 739_193
  {
    hide Transitions, FirstWeekday;
    Days2024();
    DayShift(2024, 3, 8);
    DayShift(2024, 3, 14);
    DayShift(2024, 3, 10);
    DayShift(2024, 11, 7);
    DayShift(2024, 11, 3);
    TransitionsAnchored(2024, 738_955, 739_193);
  }

  lemma Days2024()
    ensures Ordinal(2024, 3, 1) == 738_946 && Ordinal(2024, 11, 1) == 739_191
  {
    MonthStarts(2024);
  }
}
