/** The strict reader of `CanonicalJson` beside `json.loads` without hooks
  (stock_tracker/collector/tencent.py, stock_tracker/collector/eastmoney.py): what the strict
  one accepts is a value, and the tolerant one reads it identically. */
module JsonReaders {
  import opened Prelude
  import opened Numerals
  import opened CanonicalJson
  import opened JsonTheorems
  import opened Utf8

  // ------------------------------------------------------- what the strict reader accepts

  lemma ScanIntPrefix(s: string, tail: string)
    requires ScanInt(s).Some? && (tail == "" || !IsDigit(tail[0]))
    ensures ScanInt(ScanInt(s).value.0 + tail) == Some((ScanInt(s).value.0, tail))
  {
    var i := ScanInt(s).value.0;
    var t := i + tail;
    var k := if s[0] == '-' then 1 else 0;
    assert i[0] == s[0] && i[k] == s[k];
    if s[k] == '0' {
      assert t[..k + 1] == i && t[k + 1..] == tail;
    } else {
      var d := i[k..];
      DigitsAll(d);
      DigitsThen(d, tail);
      assert t[k..] == d + tail && t[..k] + d == i && "" + tail == tail;
    }
  }

  lemma ScanFractionPrefix(s: string, tail: string)
    requires tail == "" || tail[0] == 'e' || tail[0] == 'E'
    ensures ScanFraction(ScanFraction(s).0 + tail) == (ScanFraction(s).0, tail)
  {
    var f := ScanFraction(s).0;
    if f == "" {
      assert f + tail == tail;
    } else {
      FractionParts(s);
      FractionThen(f[1..], tail);
    }
  }

  lemma FractionParts(s: string)
    requires ScanFraction(s).0 != ""
    ensures var f := ScanFraction(s).0; f == "." + f[1..] && f[1..] != "" && AllDigits(f[1..])
  {
  }

  lemma FractionThen(d: string, tail: string)
    requires d != "" && AllDigits(d) && (tail == "" || !IsDigit(tail[0]))
    ensures ScanFraction("." + d + tail) == ("." + d, tail)
  {
    hide Digits;
    DigitsAll(d);
    DigitsThen(d, tail);
    assert ("." + d + tail)[1..] == d + tail && "" + tail == tail;
  }

  lemma ScanExponentPrefix(s: string)
    ensures ScanExponent(ScanExponent(s).0) == (ScanExponent(s).0, "")
    ensures ScanExponent(s).0 != "" ==> ScanExponent(s).0[0] == 'e' || ScanExponent(s).0[0] == 'E'
  {
    var e := ScanExponent(s).0;
    if e != "" {
      var k := if |s| > 1 && (s[1] == '+' || s[1] == '-') then 2 else 1;
      assert e[..k] == s[..k];
      assert e[0] == s[0] && |e| > k && e[k] == s[k];
      assert k == 2 ==> e[1] == s[1];
      assert k == 1 ==> e[1] == s[1];
      DigitsAll(e[k..]);
      assert e[..k] + e[k..] == e;
    }
  }

  lemma Reassembled(i: string, f: string, e: string)
    requires ScanInt(i + (f + e)) == Some((i, f + e)) && ScanFraction(f + e) == (f, e) && ScanExponent(e) == (e, "")
    requires f + e != ""
    ensures ParseNumber(i + f + e) == Some((Float(i + f + e), ""))
  {
    hide ScanInt, ScanFraction, ScanExponent, IntValue;
    assert i + f + e == i + (f + e);
    assert f != "" || e != "";
  }

  /** A float token is a whole float by itself. */
  lemma FloatToken(s: string)
    requires ParseNumber(s).Some? && ParseNumber(s).value.0.Float?
    ensures FloatText(ParseNumber(s).value.0.text)
  {
    var (i, s1) := ScanInt(s).value;
    var (f, s2) := ScanFraction(s1);
    var (e, s3) := ScanExponent(s2);
    TokenParts(s, i, s1, f, s2, e);
    Reassembled(i, f, e);
  }

  lemma TokenParts(s: string, i: string, s1: string, f: string, s2: string, e: string)
    requires ScanInt(s) == Some((i, s1)) && ScanFraction(s1) == (f, s2) && ScanExponent(s2).0 == e
    ensures ScanInt(i + (f + e)) == Some((i, f + e)) && ScanFraction(f + e) == (f, e) && ScanExponent(e) == (e, "")
  {
    ScanExponentPrefix(s2);
    ScanFractionPrefix(s1, e);
    FractionHead(s1, e);
    hide ScanInt, ScanExponent;
    ScanIntPrefix(s, f + e);
  }

  lemma FractionHead(s: string, e: string)
    requires e == "" || e[0] == 'e' || e[0] == 'E'
    ensures var t := ScanFraction(s).0 + e; t == "" || !IsDigit(t[0])
  {
  }

  lemma {:induction false} ValueIsValue(s: string)
    ensures ParseValue(s).Some? ==> IsValue(ParseValue(s).value.0)
    decreases |s|, 0
  {
    if s != "" && ParseValue(s).Some? {
      if s[0] == '[' {
        var t := Skip(s[1..]);
        ItemsAreValues(t);
      } else if s[0] == '{' {
        var t := Skip(s[1..]);
        PairsAreValues(t);
      } else if ParseValue(s).value.0.Float? {
        FloatToken(s);
      }
    }
  }

  lemma {:induction false} ItemsAreValues(s: string)
    ensures ParseItems(s).Some? ==> forall i | 0 <= i < |ParseItems(s).value.0| :: IsValue(ParseItems(s).value.0[i])
    decreases |s|, 1
  {
    ValueIsValue(s);
    if ParseValue(s).Some? {
      var t := Skip(ParseValue(s).value.1);
      if t != "" && t[0] == ',' {
        ItemsAreValues(Skip(t[1..]));
      }
    }
  }

  lemma {:induction false} PairsAreValues(s: string)
    ensures ParsePairs(s).Some? ==>
              forall i | 0 <= i < |ParsePairs(s).value.0| :: IsValue(ParsePairs(s).value.0[i].value)
    decreases |s|, 1
  {
    if s != "" && s[0] == '"' && ScanString(s[1..]).Some? {
      var t := Skip(ScanString(s[1..]).value.1);
      if t != "" && t[0] == ':' {
        var v := Skip(t[1..]);
        ValueIsValue(v);
        if ParseValue(v).Some? {
          var u := Skip(ParseValue(v).value.1);
          if u != "" && u[0] == ',' {
            PairsAreValues(Skip(u[1..]));
          }
        }
      }
    }
  }

  /** Whatever the text, `strict_json_loads` returns a value: each key once at every level, and
    every float a well-formed token. */
  lemma StrictLoadsValue(s: string)
    ensures StrictLoads(s).Some? ==> IsValue(StrictLoads(s).value)
  {
    ValueIsValue(Skip(s));
  }

  // ---------------------------------------------------------------- the tolerant reader

  /** A dict built from its pairs: a repeated key keeps its place and takes the last value. */
  function LastWins(ps: seq<Member>): (r: seq<Member>)
    ensures |r| <= |ps|
    ensures UniqueKeys(r)
  {
    if ps == [] then []
    else Store(LastWins(ps[..|ps| - 1]), ps[|ps| - 1])
  }

  function Store(ps: seq<Member>, m: Member): (r: seq<Member>)
    requires UniqueKeys(ps)
    ensures |ps| <= |r| <= |ps| + 1 && UniqueKeys(r)
    ensures forall i | 0 <= i < |ps| :: r[i] == if ps[i].key == m.key then m else ps[i]
    ensures (forall i | 0 <= i < |ps| :: ps[i].key != m.key) ==> r == ps + [m]
    ensures m in r
  {
    if i :| 0 <= i < |ps| && ps[i].key == m.key then ps[i := m] else ps + [m]
  }

  /** Pairs without a repeated key are the dict. */
  lemma {:induction false} LastWinsUnique(ps: seq<Member>)
    requires UniqueKeys(ps)
    ensures LastWins(ps) == ps
  {
    if ps != [] {
      hide Store;
      LastWinsUnique(ps[..|ps| - 1]);
      assert ps == ps[..|ps| - 1] + [ps[|ps| - 1]];
    }
  }

  /** The tokens that `parse_constant` sees. */
  function ParseConstant(s: string): (r: Option<(Json, string)>)
    ensures r.Some? ==> |r.value.1| < |s|
  {
    if |s| >= 3 && s[..3] == "NaN" then Some((Float("NaN"), s[3..]))
    else if |s| >= 8 && s[..8] == "Infinity" then Some((Float("Infinity"), s[8..]))
    else if |s| >= 9 && s[..9] == "-Infinity" then Some((Float("-Infinity"), s[9..]))
    else None
  }

  function TolerantValue(s: string): (r: Option<(Json, string)>)
    ensures r.Some? ==> |r.value.1| < |s|
    decreases |s|, 0
  {
    if s == "" then None
    else if s[0] == '"' then
      match ScanString(s[1..])
      case Some((t, rest)) => Some((Str(t), rest))
      case None => None
    else if s[0] == '[' then
      var t := Skip(s[1..]);
      if t != "" && t[0] == ']' then Some((Arr([]), t[1..]))
      else match TolerantItems(t)
        case Some((xs, rest)) => Some((Arr(xs), rest))
        case None => None
    else if s[0] == '{' then
      var t := Skip(s[1..]);
      if t != "" && t[0] == '}' then Some((Obj([]), t[1..]))
      else match TolerantPairs(t)
        case Some((ps, rest)) => Some((Obj(LastWins(ps)), rest))
        case None => None
    else if |s| >= 4 && s[..4] == "null" then Some((Null, s[4..]))
    else if |s| >= 4 && s[..4] == "true" then Some((Bool(true), s[4..]))
    else if |s| >= 5 && s[..5] == "false" then Some((Bool(false), s[5..]))
    else if ParseNumber(s).Some? then ParseNumber(s)
    else ParseConstant(s)
  }

  function TolerantItems(s: string): (r: Option<(seq<Json>, string)>)
    ensures r.Some? ==> |r.value.1| < |s|
    decreases |s|, 1
  {
    match TolerantValue(s)
    case None => None
    case Some((v, s1)) =>
      var t := Skip(s1);
      if t == "" then None
      else if t[0] == ']' then Some(([v], t[1..]))
      else if t[0] == ',' then
        match TolerantItems(Skip(t[1..]))
        case Some((vs, rest)) => Some(([v] + vs, rest))
        case None => None
      else None
  }

  function TolerantPairs(s: string): (r: Option<(seq<Member>, string)>)
    ensures r.Some? ==> |r.value.1| < |s|
    decreases |s|, 1
  {
    if s == "" || s[0] != '"' then None
    else match ScanString(s[1..])
      case None => None
      case Some((k, s1)) =>
        var t := Skip(s1);
        if t == "" || t[0] != ':' then None
        else match TolerantValue(Skip(t[1..]))
          case None => None
          case Some((v, s2)) =>
            var u := Skip(s2);
            if u == "" then None
            else if u[0] == '}' then Some(([Member(k, v)], u[1..]))
            else if u[0] == ',' then
              match TolerantPairs(Skip(u[1..]))
              case Some((ps, rest)) => Some(([Member(k, v)] + ps, rest))
              case None => None
            else None
  }

  /** `json.loads` without hooks. */
  function TolerantLoads(s: string): Option<Json> {
    match TolerantValue(Skip(s))
    case Some((v, rest)) => if Skip(rest) == "" then Some(v) else None
    case None => None
  }

  lemma {:induction false} SameValue(s: string)
    requires ParseValue(s).Some?
    ensures TolerantValue(s) == ParseValue(s)
    decreases |s|, 0
  {
    if s[0] == '[' {
      var t := Skip(s[1..]);
      if !(t != "" && t[0] == ']') {
        SameItems(t);
      }
    } else if s[0] == '{' {
      var t := Skip(s[1..]);
      if !(t != "" && t[0] == '}') {
        SamePairs(t);
        LastWinsUnique(ParsePairs(t).value.0);
      }
    }
  }

  lemma {:induction false} SameItems(s: string)
    requires ParseItems(s).Some?
    ensures TolerantItems(s) == ParseItems(s)
    decreases |s|, 1
  {
    SameValue(s);
    var t := Skip(ParseValue(s).value.1);
    if t[0] == ',' {
      SameItems(Skip(t[1..]));
    }
  }

  lemma {:induction false} SamePairs(s: string)
    requires ParsePairs(s).Some?
    ensures TolerantPairs(s) == ParsePairs(s)
    decreases |s|, 1
  {
    var t := Skip(ScanString(s[1..]).value.1);
    var v := Skip(t[1..]);
    SameValue(v);
    var u := Skip(ParseValue(v).value.1);
    if u[0] == ',' {
      SamePairs(Skip(u[1..]));
    }
  }

  /** What the strict reader accepts, the tolerant reader reads identically. */
  lemma StrictIsTolerant(s: string)
    ensures StrictLoads(s).Some? ==> TolerantLoads(s) == StrictLoads(s)
  {
    if ParseValue(Skip(s)).Some? {
      SameValue(Skip(s));
    }
  }

  // ---------------------------------------------------------------- from the bytes on

  /** The bytes of a response decoded and read as JSON, in either mode. */
  function ReadPayload(raw: seq<Byte>, strict: bool): Option<Json> {
    if raw == [] then None
    else if strict then
      match Decode(raw)
      case None => None
      case Some(text) => StrictLoads(text)
    else TolerantLoads(DecodeIgnoring(raw))
  }

  /** Bytes that the strict mode can read are read as the same document by the tolerant mode. */
  lemma SamePayload(raw: seq<Byte>)
    ensures ReadPayload(raw, true).Some? ==> ReadPayload(raw, false) == ReadPayload(raw, true)
  {
    DecodeAgrees(raw);
    if Decode(raw).Some? {
      StrictIsTolerant(Decode(raw).value);
    }
  }

  /** What was printed and encoded is read back, in either mode. */
  lemma PayloadReadsBack(v: Json, strict: bool)
    requires IsValue(v)
    ensures ReadPayload(Encode(Emit(v)), strict) == Some(v)
  {
    hide Emit, StrictLoads, TolerantLoads, Decode, DecodeIgnoring;
    LoadsEmitted(v);
    DecodeEncode(Emit(v));
    SamePayload(Encode(Emit(v)));
  }
}
