/** The canonical decimal text check `_decimal` (scripts/materialize_adjusted_market_data.py and
  scripts/reconcile_a_share_corporate_actions.py). */
module CanonicalDecimal {
  import opened Prelude
  import opened Numerals

  /** A finite `Decimal`: sign, coefficient and exponent. */
  datatype Decimal = Decimal(negative: bool, coefficient: nat, exponent: int)

  // --------------------------------------------------------------------- numeric value

  function Pow(x: int): (r: real)
    ensures r > 0.0
    decreases if x < 0 then -x else x
  {
    if x == 0 then 1.0 else if x > 0 then 10.0 * Pow(x - 1) else Pow(x + 1) / 10.0
  }

  function Times(n: int, x: int): real { n as real * Pow(x) }

  function Signed(d: Decimal): int { if d.negative then -(d.coefficient as int) else d.coefficient }

  function Value(d: Decimal): real { Times(Signed(d), d.exponent) }

  // ----------------------------------------------------------------- reading and writing

  function SignOf(s: string): (r: (bool, string)) {
    if s != "" && (s[0] == '-' || s[0] == '+') then (s[0] == '-', s[1..]) else (false, s)
  }

  /** What follows the digits: nothing, or an exponent. */
  function ExponentOf(s: string): Option<int> {
    if s == "" then Some(0)
    else if s[0] != 'e' && s[0] != 'E' then None
    else
      var (negative, t) := SignOf(s[1..]);
      var (ds, rest) := Digits(t);
      if ds == "" || rest != "" then None else Some(if negative then -(NatValue(ds) as int) else NatValue(ds))
  }

  function Assemble(negative: bool, whole: string, fraction: string, tail: string): Option<Decimal>
    requires AllDigits(whole) && AllDigits(fraction)
  {
    var exponent := ExponentOf(tail);
    if whole + fraction == "" || exponent.None? then None
    else Some(Decimal(negative, NatValue(whole + fraction), exponent.value - |fraction|))
  }

  function ParseFraction(negative: bool, whole: string, rest: string): Option<Decimal>
    requires AllDigits(whole)
  {
    if rest != "" && rest[0] == '.' then
      var (fraction, tail) := Digits(rest[1..]);
      Assemble(negative, whole, fraction, tail)
    else Assemble(negative, whole, "", rest)
  }

  function ParseUnsigned(negative: bool, t: string): Option<Decimal> {
    var (whole, rest) := Digits(t);
    ParseFraction(negative, whole, rest)
  }

  /** `Decimal(text)`, where that is finite. */
  function Parse(s: string): Option<Decimal> {
    var (negative, t) := SignOf(s);
    ParseUnsigned(negative, t)
  }

  function Zeros(n: nat): (s: string)
    ensures |s| == n && AllDigits(s) && forall i | 0 <= i < n :: s[i] == '0'
  {
    seq(n, _ => '0')
  }

  /** The digits left and right of a point set before digit `place`. */
  function Whole(digits: string, place: int): string {
    if place <= 0 then "0" else if place > |digits| then digits + Zeros(place - |digits|) else digits[..place]
  }

  function Fraction(digits: string, place: int): string {
    if place < 0 then Zeros(-place) + digits else if place > |digits| then "" else digits[place..]
  }

  function Tail(fraction: string): string { if fraction == "" then "" else "." + fraction }

  function Text(negative: bool, whole: string, fraction: string): string {
    (if negative then "-" else "") + whole + Tail(fraction)
  }

  /** `format(d, "f")`. */
  function Fixed(d: Decimal): string {
    var digits := NatText(d.coefficient);
    var place := d.exponent + |digits|;
    Text(d.negative, Whole(digits, place), Fraction(digits, place))
  }

  /** `s.rstrip(c)`. */
  function RStrip(s: string, c: char): (r: string)
    ensures r <= s
    ensures r == "" || r[|r| - 1] != c
    ensures forall i | |r| <= i < |s| :: s[i] == c
  {
    if s != "" && s[|s| - 1] == c then RStrip(s[..|s| - 1], c) else s
  }

  function Stripped(text: string): string {
    if '.' in text then RStrip(RStrip(text, '0'), '.') else text
  }

  /** The canonical text of a finite number. */
  function Canonical(d: Decimal): string { if d.coefficient == 0 then "0" else Stripped(Fixed(d)) }

  /** `_decimal`: the number, unless the text is not the canonical one. */
  function Accept(s: string): Option<Decimal> {
    var d := Parse(s);
    if d.Some? && Canonical(d.value) == s then d else None
  }

  // ------------------------------------------------------------------ shape of the text

  lemma RStripUnique(s: string, r: string, c: char)
    requires r <= s && (r == "" || r[|r| - 1] != c) && forall i | |r| <= i < |s| :: s[i] == c
    ensures RStrip(s, c) == r
  {
    var t := RStrip(s, c);
    assert t == s[..|t|] && r == s[..|r|];
  }

  lemma NoPoint(s: string)
    requires AllDigits(s)
    ensures '.' !in s && '-' !in s
  {
  }

  lemma HeadPointFraction(negative: bool, whole: string, fraction: string)
    requires fraction != ""
    ensures Text(negative, whole, fraction) == (if negative then "-" else "") + whole + "." + fraction
  {
  }

  /** Stripping the whole text strips the zeros of the fraction. */
  lemma StrippedText(negative: bool, whole: string, fraction: string)
    requires AllDigits(whole) && whole != "" && AllDigits(fraction)
    ensures Stripped(Text(negative, whole, fraction)) == Text(negative, whole, RStrip(fraction, '0'))
  {
    NoPoint(whole);
    if fraction == "" {
      assert Text(negative, whole, "") == (if negative then "-" else "") + whole;
    } else {
      HeadPointFraction(negative, whole, fraction);
      StripHead((if negative then "-" else "") + whole, fraction);
      if RStrip(fraction, '0') != "" {
        HeadPointFraction(negative, whole, RStrip(fraction, '0'));
      }
    }
  }

  lemma StripHead(head: string, fraction: string)
    requires head != "" && head[|head| - 1] != '.' && AllDigits(fraction) && fraction != ""
    ensures Stripped(head + "." + fraction) ==
            if RStrip(fraction, '0') == "" then head else head + "." + RStrip(fraction, '0')
  {
    var f := RStrip(fraction, '0');
    assert (head + "." + fraction)[|head|] == '.';
    StripPoint(head, fraction, f);
    if f == "" {
      assert head + "." + f == head + ".";
      StripDot(head);
    } else {
      StripNothing(head + "." + f);
    }
  }

  lemma StripPoint(head: string, fraction: string, f: string)
    requires f == RStrip(fraction, '0')
    ensures RStrip(head + "." + fraction, '0') == head + "." + f
  {
    var text, kept := head + "." + fraction, head + "." + f;
    forall i | |kept| <= i < |text| ensures text[i] == '0' {
      assert text[i] == fraction[i - |head| - 1];
    }
    if f != "" {
      assert kept[|kept| - 1] == f[|f| - 1];
    }
    RStripUnique(text, kept, '0');
  }

  lemma StripDot(head: string)
    requires head != "" && head[|head| - 1] != '.'
    ensures RStrip(head + ".", '.') == head
  {
    RStripUnique(head + ".", head, '.');
  }

  lemma StripNothing(text: string)
    requires text != "" && text[|text| - 1] != '.'
    ensures RStrip(text, '.') == text
  {
  }

  lemma PartsAreDigits(digits: string, place: int)
    requires AllDigits(digits) && digits != ""
    ensures AllDigits(Whole(digits, place)) && Whole(digits, place) != ""
    ensures AllDigits(Fraction(digits, place))
  {
  }

  lemma CanonicalAt(d: Decimal, digits: string, place: int)
    requires d.coefficient > 0 && digits == NatText(d.coefficient) && place == d.exponent + |digits|
    ensures Canonical(d) == Text(d.negative, Whole(digits, place), RStrip(Fraction(digits, place), '0'))
  {
    PartsAreDigits(digits, place);
    StrippedText(d.negative, Whole(digits, place), Fraction(digits, place));
  }

  // --------------------------------------------------------- values and trailing zeros

  lemma TimesStep(n: int, x: int)
    ensures Times(n * 10, x) == Times(n, x + 1)
  {
    assert Pow(x + 1) == 10.0 * Pow(x);
  }

  lemma {:induction false} TimesScale(n: int, x: int, k: nat)
    ensures Times(n * Ten(k), x) == Times(n, x + k)
    decreases k
  {
    if k > 0 {
      TimesScale(n, x + 1, k - 1);
      TimesStep(n * Ten(k - 1), x);
      assert n * Ten(k - 1) * 10 == n * Ten(k);
    } else {
      assert n * Ten(0) == n;
    }
  }

  lemma TimesInjective(n: int, m: int, x: int)
    requires Times(n, x) == Times(m, x)
    ensures n == m
  {
    var p := Pow(x);
    assert (n - m) as real * p == 0.0;
  }

  /** The coefficient without trailing zeros; zero has one form. */
  function Reduce(d: Decimal): (r: Decimal)
    ensures r.coefficient == 0 <==> d.coefficient == 0
    ensures r.coefficient == 0 ==> r == Decimal(false, 0, 0)
    ensures r.coefficient > 0 ==> r.coefficient % 10 != 0 && r.negative == d.negative
    decreases d.coefficient
  {
    if d.coefficient == 0 then Decimal(false, 0, 0)
    else if d.coefficient % 10 == 0 then Reduce(Shorter(d))
    else d
  }

  function Shorter(d: Decimal): Decimal {
    Decimal(d.negative, d.coefficient / 10, d.exponent + 1)
  }

  lemma ShorterValue(d: Decimal)
    requires d.coefficient % 10 == 0
    ensures Value(Shorter(d)) == Value(d)
  {
    TimesStep(Signed(Shorter(d)), d.exponent);
    assert Signed(d) == Signed(Shorter(d)) * 10;
  }

  lemma {:induction false} ReduceValue(d: Decimal)
    ensures Value(Reduce(d)) == Value(d)
    decreases d.coefficient
  {
    if d.coefficient == 0 {
      assert Times(0, d.exponent) == 0.0 == Times(0, 0);
    } else if d.coefficient % 10 == 0 {
      ShorterValue(d);
      ReduceValue(Shorter(d));
    }
  }

  lemma ReducedUnique(n: int, x: int, m: int, y: int)
    requires Times(n, x) == Times(m, y) && n % 10 != 0 && m % 10 != 0 && x <= y
    ensures n == m && x == y
  {
    TimesScale(m, x, y - x);
    TimesInjective(n, m * Ten(y - x), x);
    MultipleOfTen(m, y - x);
  }

  lemma MultipleOfTen(m: int, k: nat)
    ensures k == 0 ==> m * Ten(k) == m
    ensures k > 0 ==> m * Ten(k) % 10 == 0
  {
    if k > 0 {
      TenTimes(m, Ten(k - 1));
    }
  }

  lemma TenTimes(m: int, n: nat)
    ensures m * (10 * n) % 10 == 0
  {
    assert m * (10 * n) == 10 * (m * n);
  }

  lemma NegatedDigit(c: nat)
    ensures (0 - c) % 10 != 0 <==> c % 10 != 0
  {
  }

  /** Equal values have equal reduced forms. */
  lemma SameValueSameForm(d: Decimal, e: Decimal)
    requires Value(d) == Value(e)
    ensures Reduce(d) == Reduce(e)
  {
    var r, s := Reduce(d), Reduce(e);
    ReduceValue(d);
    ReduceValue(e);
    NegatedDigit(r.coefficient);
    NegatedDigit(s.coefficient);
    if r.coefficient == 0 || s.coefficient == 0 {
      assert Times(0, 0) == 0.0;
      if r.coefficient > 0 { NotZero(Signed(r), r.exponent); }
      if s.coefficient > 0 { NotZero(Signed(s), s.exponent); }
    } else if r.exponent <= s.exponent {
      ReducedUnique(Signed(r), r.exponent, Signed(s), s.exponent);
    } else {
      ReducedUnique(Signed(s), s.exponent, Signed(r), r.exponent);
    }
  }

  lemma NotZero(n: int, x: int)
    requires n != 0
    ensures Times(n, x) != 0.0
  {
    if Times(n, x) == 0.0 {
      assert Times(0, x) == 0.0;
      TimesInjective(n, 0, x);
    }
  }

  // -------------------------------------------------------- the text follows the value

  lemma StripOne(s: string)
    ensures RStrip(s + "0", '0') == RStrip(s, '0')
  {
    assert (s + "0")[..|s + "0"| - 1] == s;
  }

  /** A trailing zero of the coefficient does not show. */
  lemma ShorterText(d: Decimal)
    requires d.coefficient > 0 && d.coefficient % 10 == 0
    ensures Canonical(Shorter(d)) == Canonical(d)
  {
    var e := Shorter(d);
    var short := NatText(e.coefficient);
    var place := d.exponent + |short| + 1;
    CanonicalAt(d, short + "0", place);
    CanonicalAt(e, short, place);
    LongerWhole(short, place);
    LongerFraction(short, place);
  }

  lemma LongerWhole(short: string, place: int)
    ensures Whole(short + "0", place) == Whole(short, place)
  {
    if place > |short| {
      assert Zeros(place - |short|) == "0" + Zeros(place - |short| - 1);
      assert short + "0" + Zeros(place - |short| - 1) == short + Zeros(place - |short|);
    }
  }

  lemma LongerFraction(short: string, place: int)
    ensures RStrip(Fraction(short + "0", place), '0') == RStrip(Fraction(short, place), '0')
  {
    var fraction := Fraction(short, place);
    if place <= |short| {
      assert Fraction(short + "0", place) == fraction + "0";
      StripOne(fraction);
    } else {
      assert Fraction(short + "0", place) == "";
    }
  }

  lemma {:induction false} ReduceText(d: Decimal)
    ensures Canonical(Reduce(d)) == Canonical(d)
    decreases d.coefficient
  {
    if d.coefficient > 0 && d.coefficient % 10 == 0 {
      ShorterText(d);
      ReduceText(Shorter(d));
    }
  }

  lemma SameValueSameText(d: Decimal, e: Decimal)
    requires Value(d) == Value(e)
    ensures Canonical(d) == Canonical(e)
  {
    SameValueSameForm(d, e);
    ReduceText(d);
    ReduceText(e);
  }

  // ------------------------------------------------------------------ reading it back

  lemma ParseWhole(negative: bool, whole: string)
    requires AllDigits(whole) && whole != ""
    ensures ParseUnsigned(negative, whole) == Some(Decimal(negative, NatValue(whole), 0))
  {
    DigitsAll(whole);
    assert whole + "" == whole;
  }

  lemma Assembled(negative: bool, whole: string, fraction: string)
    requires AllDigits(whole) && whole != "" && AllDigits(fraction)
    ensures AllDigits(whole + fraction)
    ensures Assemble(negative, whole, fraction, "") == Some(Decimal(negative, NatValue(whole + fraction), -|fraction|))
  {
    assert |whole + fraction| > 0;
  }

  lemma PointFollows(whole: string, fraction: string)
    requires AllDigits(whole) && AllDigits(fraction)
    ensures Digits(whole + ("." + fraction)) == (whole, "." + fraction)
    ensures Digits(("." + fraction)[1..]) == (fraction, "")
  {
    var tail := "." + fraction;
    DigitsThen(whole, tail);
    DigitsAll(whole);
    assert "" + tail == tail;
    assert tail[1..] == fraction;
    DigitsAll(fraction);
  }

  lemma ParsePoint(negative: bool, whole: string, fraction: string)
    requires AllDigits(whole) && whole != "" && AllDigits(fraction)
    ensures AllDigits(whole + fraction)
    ensures ParseUnsigned(negative, whole + ("." + fraction))
            == Some(Decimal(negative, NatValue(whole + fraction), -|fraction|))
  {
    PointFollows(whole, fraction);
    Assembled(negative, whole, fraction);
  }

  lemma SignText(negative: bool, whole: string, fraction: string)
    requires AllDigits(whole) && whole != ""
    ensures SignOf(Text(negative, whole, fraction)) == (negative, whole + Tail(fraction))
  {
    hide SignOf, Tail, AllDigits;
    var plain := whole + Tail(fraction);
    HeadIsDigit(whole);
    assert plain[0] == whole[0];
    SignThen(negative, plain);
    Regroup(if negative then "-" else "", whole, Tail(fraction));
  }

  lemma HeadIsDigit(whole: string)
    requires AllDigits(whole) && whole != ""
    ensures IsDigit(whole[0])
  {
  }

  lemma Regroup(a: string, b: string, c: string)
    ensures a + b + c == a + (b + c)
  {
  }

  lemma SignThen(negative: bool, plain: string)
    requires plain != "" && IsDigit(plain[0])
    ensures SignOf((if negative then "-" else "") + plain) == (negative, plain)
  {
    if negative {
      assert ("-" + plain)[1..] == plain;
    } else {
      assert "" + plain == plain;
    }
  }

  lemma ParseWholeText(negative: bool, whole: string)
    requires AllDigits(whole) && whole != ""
    ensures Parse(Text(negative, whole, "")) == Some(Decimal(negative, NatValue(whole), 0))
  {
    hide SignOf, ParseUnsigned, Text, NatValue, Digits;
    SignText(negative, whole, "");
    ParseWhole(negative, whole);
    assert whole + "" == whole;
  }

  lemma ParsePointText(negative: bool, whole: string, fraction: string)
    requires AllDigits(whole) && whole != "" && AllDigits(fraction) && fraction != ""
    ensures AllDigits(whole + fraction)
    ensures Parse(Text(negative, whole, fraction)) == Some(Decimal(negative, NatValue(whole + fraction), -|fraction|))
  {
    hide SignOf, ParseUnsigned, Text, NatValue, Digits;
    SignText(negative, whole, fraction);
    ParsePoint(negative, whole, fraction);
  }

  lemma ParseText(negative: bool, whole: string, fraction: string)
    requires AllDigits(whole) && whole != "" && AllDigits(fraction)
    ensures AllDigits(whole + fraction)
    ensures Parse(Text(negative, whole, fraction)) == Some(Decimal(negative, NatValue(whole + fraction), -|fraction|))
  {
    hide Parse, Text, NatValue;
    if fraction == "" {
      ParseWholeText(negative, whole);
      assert whole + "" == whole;
    } else {
      ParsePointText(negative, whole, fraction);
    }
  }

  lemma {:induction false} ValueOfZeros(n: nat, s: string)
    requires AllDigits(s)
    ensures AllDigits(Zeros(n) + s) && NatValue(Zeros(n) + s) == NatValue(s)
    decreases n
  {
    if n == 0 {
      assert Zeros(0) + s == s;
    } else {
      ValueOfZeros(n - 1, s);
      LeadingZero(Zeros(n - 1) + s);
      assert Zeros(n) + s == "0" + (Zeros(n - 1) + s);
    }
  }

  lemma ZeroAppended(s: string)
    requires AllDigits(s)
    ensures AllDigits(s + "0") && NatValue(s + "0") == NatValue(s) * 10
  {
    var t := s + "0";
    assert t[..|t| - 1] == s;
  }

  lemma TenStep(v: nat, n: nat)
    requires n > 0
    ensures v * Ten(n - 1) * 10 == v * Ten(n)
  {
  }

  lemma NoZeros(s: string)
    requires AllDigits(s)
    ensures s + Zeros(0) == s && NatValue(s) * Ten(0) == NatValue(s)
  {
  }

  lemma OneMoreZero(s: string, n: nat)
    requires n > 0
    ensures s + Zeros(n) == s + Zeros(n - 1) + "0"
  {
  }

  lemma {:induction false} ValueThenZeros(s: string, n: nat)
    requires AllDigits(s)
    ensures AllDigits(s + Zeros(n)) && NatValue(s + Zeros(n)) == NatValue(s) * Ten(n)
    decreases n
  {
    hide NatValue, Ten, Zeros;
    if n == 0 {
      NoZeros(s);
    } else {
      ValueThenZeros(s, n - 1);
      ZeroAppended(s + Zeros(n - 1));
      TenStep(NatValue(s), n);
      OneMoreZero(s, n);
    }
  }

  function Read(negative: bool, whole: string, fraction: string): Decimal
    requires AllDigits(whole) && AllDigits(fraction)
  {
    Decimal(negative, NatValue(whole + fraction), -|fraction|)
  }

  /** Cutting a zero off the fraction keeps the value. */
  lemma {:induction false} StripValue(negative: bool, whole: string, fraction: string)
    requires AllDigits(whole) && AllDigits(fraction)
    ensures AllDigits(RStrip(fraction, '0'))
    ensures Value(Read(negative, whole, RStrip(fraction, '0'))) == Value(Read(negative, whole, fraction))
    decreases |fraction|
  {
    if fraction != "" && fraction[|fraction| - 1] == '0' {
      var shorter := fraction[..|fraction| - 1];
      StripValue(negative, whole, shorter);
      var t := whole + fraction;
      assert t[..|t| - 1] == whole + shorter;
      ShorterValue(Read(negative, whole, fraction));
      assert Shorter(Read(negative, whole, fraction)) == Read(negative, whole, shorter);
    }
  }

  lemma JoinParts(digits: string, place: int)
    requires AllDigits(digits) && place <= |digits|
    ensures Whole(digits, place) + Fraction(digits, place) == if place <= 0 then Zeros(1 - place) + digits else digits
    ensures |Fraction(digits, place)| == |digits| - place
  {
  }

  lemma ReadParts(d: Decimal, digits: string, place: int)
    requires d.coefficient > 0 && digits == NatText(d.coefficient) && place == d.exponent + |digits|
    ensures AllDigits(Whole(digits, place)) && AllDigits(Fraction(digits, place))
    ensures Value(Read(d.negative, Whole(digits, place), Fraction(digits, place))) == Value(d)
  {
    ValueOfText(d.coefficient);
    PartsAreDigits(digits, place);
    if place > |digits| {
      ReadWhole(d, digits, place);
    } else {
      JoinParts(digits, place);
      if place <= 0 {
        ValueOfZeros(1 - place, digits);
      }
      assert Read(d.negative, Whole(digits, place), Fraction(digits, place)) == d;
    }
  }

  lemma ReadWhole(d: Decimal, digits: string, place: int)
    requires d.exponent > 0 && AllDigits(digits) && place == d.exponent + |digits| && NatValue(digits) == d.coefficient
    ensures AllDigits(Whole(digits, place))
    ensures Value(Read(d.negative, Whole(digits, place), "")) == Value(d)
  {
    ValueThenZeros(digits, d.exponent);
    assert Whole(digits, place) + "" == digits + Zeros(d.exponent);
    TimesScale(Signed(d), 0, d.exponent);
    SignedScale(d, d.exponent);
  }

  lemma SignedScale(d: Decimal, k: nat)
    ensures Signed(Decimal(d.negative, d.coefficient * Ten(k), 0)) == Signed(d) * Ten(k)
  {
  }

  lemma ZeroReadsBack()
    ensures Parse("0") == Some(Decimal(false, 0, 0)) && Value(Decimal(false, 0, 0)) == 0.0
  {
    ParseText(false, "0", "");
    assert Text(false, "0", "") == "0" && "0" + "" == "0" == NatText(0);
    ValueOfText(0);
    assert Times(0, 0) == 0.0;
  }

  lemma ReadsBack(text: string, negative: bool, whole: string, fraction: string, value: real)
    requires AllDigits(whole) && whole != "" && AllDigits(fraction)
    requires text == Text(negative, whole, fraction) && Value(Read(negative, whole, fraction)) == value
    ensures Parse(text).Some? && Value(Parse(text).value) == value
  {
    ParseText(negative, whole, fraction);
  }

  lemma PositiveReadsBack(d: Decimal)
    requires d.coefficient > 0
    ensures Parse(Canonical(d)).Some? && Value(Parse(Canonical(d)).value) == Value(d)
  {
    var digits := NatText(d.coefficient);
    var place := d.exponent + |digits|;
    var whole, fraction := Whole(digits, place), Fraction(digits, place);
    PartsAreDigits(digits, place);
    CanonicalAt(d, digits, place);
    ReadParts(d, digits, place);
    StripValue(d.negative, whole, fraction);
    ReadsBack(Canonical(d), d.negative, whole, RStrip(fraction, '0'), Value(d));
  }

  /** The canonical text is read back as the number. */
  lemma CanonicalReadsBack(d: Decimal)
    ensures Parse(Canonical(d)).Some? && Value(Parse(Canonical(d)).value) == Value(d)
  {
    if d.coefficient == 0 {
      ZeroReadsBack();
      assert Times(0, d.exponent) == 0.0;
    } else {
      PositiveReadsBack(d);
    }
  }

  /** Every finite number has exactly one accepted text, its canonical one: two accepted texts
    with one value are the same string. */
  lemma AcceptedExactly(s: string, d: Decimal)
    ensures Accept(s).Some? && Value(Accept(s).value) == Value(d) <==> s == Canonical(d)
  {
    if s == Canonical(d) {
      CanonicalReadsBack(d);
      SameValueSameText(Parse(s).value, d);
    } else if Accept(s).Some? && Value(Accept(s).value) == Value(d) {
      SameValueSameText(Accept(s).value, d);
    }
  }

  // ------------------------------------------------------------ which texts are accepted

  /** A sign only on a nonzero number, no leading zero, no trailing zero after the point. */
  predicate Plain(negative: bool, whole: string, fraction: string) {
    && AllDigits(whole) && whole != "" && AllDigits(fraction)
    && (whole[0] == '0' ==> whole == "0")
    && (fraction != "" ==> fraction[|fraction| - 1] != '0')
    && !(negative && whole == "0" && fraction == "")
  }

  ghost predicate PlainText(s: string) {
    exists negative, whole, fraction :: Plain(negative, whole, fraction) && s == Text(negative, whole, fraction)
  }

  lemma FirstDigit(c: nat)
    requires c > 0
    ensures NatText(c)[0] != '0'
  {
  }

  lemma CanonicalIsPlain(d: Decimal)
    ensures PlainText(Canonical(d))
  {
    if d.coefficient == 0 {
      assert Plain(false, "0", "") && Text(false, "0", "") == "0";
    } else {
      var digits := NatText(d.coefficient);
      var place := d.exponent + |digits|;
      var whole, fraction := Whole(digits, place), Fraction(digits, place);
      PartsAreDigits(digits, place);
      FirstDigit(d.coefficient);
      if place <= 0 {
        assert fraction[-place] == digits[0];
        assert RStrip(fraction, '0') != "";
      }
      assert Plain(d.negative, whole, RStrip(fraction, '0'));
      CanonicalAt(d, digits, place);
    }
  }

  function LeadingZeros(s: string): (k: nat)
    ensures k <= |s| && (k < |s| ==> s[k] != '0')
    ensures forall i | 0 <= i < k :: s[i] == '0'
  {
    if s == "" || s[0] != '0' then 0 else LeadingZeros(s[1..]) + 1
  }

  /** The digits and the place of the point of a plain number, read as one coefficient. */
  lemma PlainDigits(whole: string, fraction: string)
    requires Plain(false, whole, fraction) && whole + fraction != "0"
    ensures AllDigits(whole + fraction) && NatValue(whole + fraction) > 0
    ensures var digits := NatText(NatValue(whole + fraction));
            var place := |digits| - |fraction|;
            Whole(digits, place) == whole && Fraction(digits, place) == fraction
  {
    if whole != "0" {
      TextOfValue(whole + fraction);
      SplitAtPoint(whole, fraction);
    } else {
      ValueBelowOne(fraction);
    }
  }

  lemma SplitAtPoint(whole: string, fraction: string)
    requires whole != ""
    ensures Whole(whole + fraction, |whole|) == whole && Fraction(whole + fraction, |whole|) == fraction
  {
    assert (whole + fraction)[..|whole|] == whole && (whole + fraction)[|whole|..] == fraction;
  }

  lemma ValueBelowOne(fraction: string)
    requires AllDigits(fraction) && fraction != "" && fraction[|fraction| - 1] != '0'
    ensures AllDigits("0" + fraction) && NatValue("0" + fraction) > 0
    ensures var digits := NatText(NatValue("0" + fraction));
            var place := |digits| - |fraction|;
            Whole(digits, place) == "0" && Fraction(digits, place) == fraction
  {
    var k := LeadingZeros(fraction);
    assert fraction == Zeros(k) + fraction[k..];
    SameNumber(k, fraction[k..], fraction);
    PointBefore(k, fraction[k..]);
  }

  lemma SameNumber(k: nat, g: string, fraction: string)
    requires AllDigits(g) && g != "" && g[0] != '0' && fraction == Zeros(k) + g
    ensures AllDigits("0" + fraction) && NatValue("0" + fraction) > 0
    ensures NatText(NatValue("0" + fraction)) == g
  {
    ValueOfZeros(1 + k, g);
    assert "0" + fraction == Zeros(1 + k) + g;
    TextOfValue(g);
  }

  lemma PointBefore(k: nat, g: string)
    ensures Whole(g, 0 - k) == "0" && Fraction(g, 0 - k) == Zeros(k) + g
  {
    if k == 0 {
      assert Zeros(k) + g == g[0..];
    }
  }

  lemma PlainIsCanonical(d: Decimal, whole: string, fraction: string)
    requires Plain(d.negative, whole, fraction) && whole + fraction != "0"
    requires d.coefficient == NatValue(whole + fraction) && d.exponent == -|fraction|
    ensures Canonical(d) == Text(d.negative, whole, fraction)
  {
    var digits := PlainPlace(d.coefficient, whole, fraction);
    PartsCanonical(d, digits, whole, fraction);
  }

  lemma PlainPlace(c: nat, whole: string, fraction: string) returns (digits: string)
    requires Plain(false, whole, fraction) && whole + fraction != "0" && c == NatValue(whole + fraction)
    ensures c > 0 && digits == NatText(c)
    ensures Whole(digits, |digits| - |fraction|) == whole && Fraction(digits, |digits| - |fraction|) == fraction
  {
    PlainDigits(whole, fraction);
    digits := NatText(c);
  }

  lemma PartsCanonical(d: Decimal, digits: string, whole: string, fraction: string)
    requires d.coefficient > 0 && digits == NatText(d.coefficient) && d.exponent == -|fraction|
    requires AllDigits(whole) && whole != "" && AllDigits(fraction)
    requires Whole(digits, |digits| - |fraction|) == whole && Fraction(digits, |digits| - |fraction|) == fraction
    requires fraction != "" ==> fraction[|fraction| - 1] != '0'
    ensures Canonical(d) == Text(d.negative, whole, fraction)
  {
    hide RStrip, NatText, Whole, Fraction, Text;
    RStripUnique(fraction, fraction, '0');
    StrippedText(d.negative, whole, fraction);
    assert Fixed(d) == Text(d.negative, whole, fraction);
  }

  lemma PlainAccepted(negative: bool, whole: string, fraction: string)
    requires Plain(negative, whole, fraction)
    ensures Accept(Text(negative, whole, fraction)).Some?
  {
    if whole + fraction == "0" {
      assert whole == "0" && fraction == "" && Text(negative, whole, fraction) == "0";
      ZeroReadsBack();
    } else {
      ParseText(negative, whole, fraction);
      PlainIsCanonical(Decimal(negative, NatValue(whole + fraction), -|fraction|), whole, fraction);
    }
  }

  /** The check accepts exactly the plain numbers: optional minus sign, integer part without
    leading zeros, optional fraction without trailing zeros, and no negative zero. */
  lemma AcceptedForm(s: string)
    ensures Accept(s).Some? <==> PlainText(s)
  {
    if Accept(s).Some? {
      CanonicalIsPlain(Accept(s).value);
    }
    if PlainText(s) {
      var negative, whole, fraction :| Plain(negative, whole, fraction) && s == Text(negative, whole, fraction);
      PlainAccepted(negative, whole, fraction);
    }
  }
}
