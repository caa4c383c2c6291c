/** Canonical JSON text and its strict reader (sidecars/xtp/contracts.py).
  A dict is the sequence of its pairs in insertion order; a float is its shortest
  repr text; bytes are the text they encode. */
module CanonicalJson {
  import opened Prelude
  import opened Numerals

  datatype Json =
    | Null
    | Bool(b: bool)
    | Int(n: int)
    | Float(text: string)
    | Str(s: string)
    | Arr(items: seq<Json>)
    | Obj(pairs: seq<Member>)

  datatype Member = Member(key: string, value: Json)

  const MAX_PAYLOAD_DEPTH := 8
  const MAX_COLLECTION_ITEMS := 4096
  const MAX_TEXT_LENGTH := 4096
  const MAX_INTEGER := 0x7FFF_FFFF_FFFF_FFFF

  // ---------------------------------------------------------------- validation

  predicate TextOk(s: string) {
    && |s| <= MAX_TEXT_LENGTH
    && forall i | 0 <= i < |s| :: !(s[i] as int < 9 || 13 < s[i] as int < 32 || s[i] as int == 127)
  }

  predicate KeyOk(s: string) {
    && 0 < |s| <= MAX_TEXT_LENGTH
    && forall i | 0 <= i < |s| :: !((s[i] as int) < 32 || s[i] as int == 127)
  }

  /** `_validate_json_value` returns without raising. */
  predicate Valid(v: Json, depth: nat) {
    && depth <= MAX_PAYLOAD_DEPTH
    && match v
       case Int(n) => -MAX_INTEGER <= n <= MAX_INTEGER
       case Str(s) => TextOk(s)
       case Arr(xs) => |xs| <= MAX_COLLECTION_ITEMS && forall i | 0 <= i < |xs| :: Valid(xs[i], depth + 1)
       case Obj(ps) =>
         && |ps| <= MAX_COLLECTION_ITEMS
         && forall i | 0 <= i < |ps| :: KeyOk(ps[i].key) && Valid(ps[i].value, depth + 1)
       case _ => true
  }

  predicate UniqueKeys(ps: seq<Member>) {
    forall i, j | 0 <= i < j < |ps| :: ps[i].key != ps[j].key
  }

  /** The Python values: a dict has each key once, a float prints as a float token. */
  predicate IsValue(v: Json) {
    match v
    case Float(t) => FloatText(t)
    case Arr(xs) => forall i | 0 <= i < |xs| :: IsValue(xs[i])
    case Obj(ps) => UniqueKeys(ps) && forall i | 0 <= i < |ps| :: IsValue(ps[i].value)
    case _ => true
  }

  // ------------------------------------------------------------------ printing

  function HexChar(d: nat): char
    requires d < 16
  {
    if d < 10 then '0' + d as char else 'a' + (d - 10) as char
  }

  function EscapeChar(c: char): string {
    if c == '"' then "\\\"" else if c == '\\' then "\\\\"
    else if c == '\n' then "\\n" else if c == '\r' then "\\r" else if c == '\t' then "\\t"
    else if c as int == 8 then "\\b" else if c as int == 12 then "\\f"
    else if (c as int) < 32 then "\\u00" + [HexChar(c as int / 16), HexChar(c as int % 16)]
    else [c]
  }

  function Escape(s: string): string {
    if s == "" then "" else EscapeChar(s[0]) + Escape(s[1..])
  }

  function Quote(s: string): string { "\"" + Escape(s) + "\"" }

  function IntText(n: int): string { if n < 0 then "-" + NatText(-n) else NatText(n) }

  /** `json.dumps` with separators `,` and `:`, keys in the order given. */
  function Emit(v: Json): string
    decreases v, 1
  {
    match v
    case Null => "null"
    case Bool(b) => if b then "true" else "false"
    case Int(n) => IntText(n)
    case Float(t) => t
    case Str(s) => Quote(s)
    case Arr(xs) => "[" + EmitItems(xs) + "]"
    case Obj(ps) => "{" + EmitPairs(ps) + "}"
  }

  function EmitItems(xs: seq<Json>): string
    decreases xs, 0
  {
    if xs == [] then ""
    else Emit(xs[0]) + if |xs| == 1 then "" else "," + EmitItems(xs[1..])
  }

  function EmitPairs(ps: seq<Member>): string
    decreases ps, 0
  {
    if ps == [] then "" else Quote(ps[0].key) + ":" + Emit(ps[0].value) + EmitMore(ps[1..])
  }

  function EmitMore(ps: seq<Member>): string
    decreases ps, 1
  {
    if ps == [] then "" else "," + EmitPairs(ps)
  }

  /** String order by code point. */
  predicate Less(a: string, b: string) {
    b != "" && (a == "" || a[0] < b[0] || (a[0] == b[0] && Less(a[1..], b[1..])))
  }

  function Insert(p: Member, ps: seq<Member>): (r: seq<Member>)
    ensures |r| == |ps| + 1
  {
    if ps == [] || Less(p.key, ps[0].key) then [p] + ps else [ps[0]] + Insert(p, ps[1..])
  }

  /** The value with the keys of every object sorted. */
  function Normalize(v: Json): Json
    decreases v, 1
  {
    match v
    case Arr(xs) => Arr(NormalizeItems(xs))
    case Obj(ps) => Obj(NormalizePairs(ps))
    case _ => v
  }

  function NormalizeItems(xs: seq<Json>): (r: seq<Json>)
    ensures |r| == |xs|
    decreases xs, 0
  {
    if xs == [] then [] else [Normalize(xs[0])] + NormalizeItems(xs[1..])
  }

  function NormalizePairs(ps: seq<Member>): (r: seq<Member>)
    ensures |r| == |ps|
    decreases ps, 0
  {
    if ps == [] then [] else Insert(Member(ps[0].key, Normalize(ps[0].value)), NormalizePairs(ps[1..]))
  }

  /** `canonical_json_bytes` after validation: `json.dumps(..., sort_keys=True)`. */
  function CanonicalText(v: Json): string { Emit(Normalize(v)) }

  function CanonicalBytes(v: Json): Option<string> {
    if Valid(v, 0) then Some(CanonicalText(v)) else None
  }

  // ------------------------------------------------------------------- reading

  predicate IsSpace(c: char) { c == ' ' || c == '\t' || c == '\n' || c == '\r' }

  function Skip(s: string): (r: string)
    ensures |r| <= |s|
  {
    if s != "" && IsSpace(s[0]) then Skip(s[1..]) else s
  }

  function HexValue(c: char): Option<nat> {
    if '0' <= c <= '9' then Some((c - '0') as nat)
    else if 'a' <= c <= 'f' then Some((c - 'a') as nat + 10)
    else if 'A' <= c <= 'F' then Some((c - 'A') as nat + 10)
    else None
  }

  function Hex4(s: string): (r: Option<nat>)
    ensures r.Some? ==> |s| >= 4 && r.value < 0x10000
  {
    if |s| < 4 then None
    else match (HexValue(s[0]), HexValue(s[1]), HexValue(s[2]), HexValue(s[3]))
      case (Some(a), Some(b), Some(c), Some(d)) =>
        if a < 16 && b < 16 && c < 16 && d < 16 then Some(((a * 16 + b) * 16 + c) * 16 + d) else None
      case _ => None
  }

  /** One escape sequence after its backslash: the character and the text after it. */
  function Unescape(s: string): (r: Option<(char, string)>)
    ensures r.Some? ==> |r.value.1| < |s|
  {
    if s == "" then None
    else match s[0]
      case '"' => Some(('"', s[1..]))
      case '\\' => Some(('\\', s[1..]))
      case '/' => Some(('/', s[1..]))
      case 'b' => Some((8 as char, s[1..]))
      case 'f' => Some((12 as char, s[1..]))
      case 'n' => Some(('\n', s[1..]))
      case 'r' => Some(('\r', s[1..]))
      case 't' => Some(('\t', s[1..]))
      case 'u' =>
        (match Hex4(s[1..])
         case None => None
         case Some(hi) =>
           if hi < 0xD800 || 0xE000 <= hi then Some((hi as char, s[5..]))
           else if hi < 0xDC00 && |s| >= 7 && s[5] == '\\' && s[6] == 'u' then
             (match Hex4(s[7..])
              case Some(lo) =>
                if 0xDC00 <= lo < 0xE000
                then Some(((0x10000 + (hi - 0xD800) * 0x400 + (lo - 0xDC00)) as char, s[11..]))
                else None
              case None => None)
           else None)
      case _ => None
  }

  /** A string body up to its closing quote. */
  function ScanString(s: string): (r: Option<(string, string)>)
    ensures r.Some? ==> |r.value.1| < |s|
    decreases |s|
  {
    if s == "" then None
    else if s[0] == '"' then Some(("", s[1..]))
    else if (s[0] as int) < 32 then None
    else if s[0] == '\\' then
      match Unescape(s[1..])
      case None => None
      case Some((c, t)) => Prepend(c, ScanString(t))
    else Prepend(s[0], ScanString(s[1..]))
  }

  function Prepend(c: char, r: Option<(string, string)>): Option<(string, string)> {
    if r.Some? then Some(([c] + r.value.0, r.value.1)) else None
  }

  function ScanInt(s: string): (r: Option<(string, string)>)
    ensures r.Some? ==> |r.value.0| > 0 && r.value.0 + r.value.1 == s
    ensures r.Some? && r.value.0[0] == '-' ==> |r.value.0| > 1 && AllDigits(r.value.0[1..])
    ensures r.Some? && r.value.0[0] != '-' ==> AllDigits(r.value.0)
  {
    var k := if s != "" && s[0] == '-' then 1 else 0;
    if |s| <= k || !IsDigit(s[k]) then None
    else if s[k] == '0' then Some((s[..k + 1], s[k + 1..]))
    else
      var (d, t) := Digits(s[k..]);
      assert s == s[..k] + s[k..];
      assert (s[..k] + d)[k..] == d;
      Some((s[..k] + d, t))
  }

  function ScanFraction(s: string): (r: (string, string))
    ensures r.0 + r.1 == s
  {
    if |s| >= 2 && s[0] == '.' && IsDigit(s[1]) then
      var (d, t) := Digits(s[1..]);
      ("." + d, t)
    else ("", s)
  }

  function ScanExponent(s: string): (r: (string, string))
    ensures r.0 + r.1 == s
  {
    if s != "" && (s[0] == 'e' || s[0] == 'E') then
      var k := if |s| > 1 && (s[1] == '+' || s[1] == '-') then 2 else 1;
      if |s| > k && IsDigit(s[k]) then
        var (d, t) := Digits(s[k..]);
        assert s == s[..k] + s[k..];
        (s[..k] + d, t)
      else ("", s)
    else ("", s)
  }

  function IntValue(t: string): int
    requires |t| > 0
    requires if t[0] == '-' then AllDigits(t[1..]) else AllDigits(t)
  {
    var n: int := if t[0] == '-' then NatValue(t[1..]) else NatValue(t);
    if t[0] == '-' then -n else n
  }

  function ParseNumber(s: string): (r: Option<(Json, string)>)
    ensures r.Some? ==> |r.value.1| < |s|
  {
    match ScanInt(s)
    case None => None
    case Some((i, s1)) =>
      var (f, s2) := ScanFraction(s1);
      var (e, s3) := ScanExponent(s2);
      if f == "" && e == "" then Some((Int(IntValue(i)), s3)) else Some((Float(i + f + e), s3))
  }

  /** A whole token that reads as a float. */
  predicate FloatText(t: string) {
    ParseNumber(t) == Some((Float(t), ""))
  }

  function ParseValue(s: string): (r: Option<(Json, string)>)
    ensures r.Some? ==> |r.value.1| < |s|
    decreases |s|, 0
  {
    if s == "" then None
    else if s[0] == '"' then
      match ScanString(s[1..])
      case Some((t, rest)) => Some((Str(t), rest))
      case None => None
    else if s[0] == '[' then
      var t := Skip(s[1..]);
      if t != "" && t[0] == ']' then Some((Arr([]), t[1..]))
      else match ParseItems(t)
        case Some((xs, rest)) => Some((Arr(xs), rest))
        case None => None
    else if s[0] == '{' then
      var t := Skip(s[1..]);
      if t != "" && t[0] == '}' then Some((Obj([]), t[1..]))
      else match ParsePairs(t)
        case Some((ps, rest)) => if UniqueKeys(ps) then Some((Obj(ps), rest)) else None
        case None => None
    else if |s| >= 4 && s[..4] == "null" then Some((Null, s[4..]))
    else if |s| >= 4 && s[..4] == "true" then Some((Bool(true), s[4..]))
    else if |s| >= 5 && s[..5] == "false" then Some((Bool(false), s[5..]))
    else ParseNumber(s)
  }

  /** Array elements up to and including the closing bracket. */
  function ParseItems(s: string): (r: Option<(seq<Json>, string)>)
    ensures r.Some? ==> |r.value.1| < |s|
    decreases |s|, 1
  {
    match ParseValue(s)
    case None => None
    case Some((v, s1)) =>
      var t := Skip(s1);
      if t == "" then None
      else if t[0] == ']' then Some(([v], t[1..]))
      else if t[0] == ',' then
        match ParseItems(Skip(t[1..]))
        case Some((vs, rest)) => Some(([v] + vs, rest))
        case None => None
      else None
  }

  /** Object members up to and including the closing brace. */
  function ParsePairs(s: string): (r: Option<(seq<Member>, string)>)
    ensures r.Some? ==> |r.value.1| < |s|
    decreases |s|, 1
  {
    if s == "" || s[0] != '"' then None
    else match ScanString(s[1..])
      case None => None
      case Some((k, s1)) =>
        var t := Skip(s1);
        if t == "" || t[0] != ':' then None
        else match ParseValue(Skip(t[1..]))
          case None => None
          case Some((v, s2)) =>
            var u := Skip(s2);
            if u == "" then None
            else if u[0] == '}' then Some(([Member(k, v)], u[1..]))
            else if u[0] == ',' then
              match ParsePairs(Skip(u[1..]))
              case Some((ps, rest)) => Some(([Member(k, v)] + ps, rest))
              case None => None
            else None
  }

  /** `strict_json_loads`. */
  function StrictLoads(s: string): Option<Json> {
    match ParseValue(Skip(s))
    case Some((v, rest)) => if Skip(rest) == "" then Some(v) else None
    case None => None
  }

  // ------------------------------------------------- reading back what is printed

  lemma {:induction false} ScanEscapedChar(c: char, tail: string)
    ensures ScanString(EscapeChar(c) + tail) == Prepend(c, ScanString(tail))
  {
    var e := EscapeChar(c);
    var s := e + tail;
    if |e| == 1 {
      assert s[1..] == tail;
    } else if |e| == 2 {
      assert s[1..][1..] == tail;
    } else {
      var u := s[1..];
      assert u[5..] == tail;
      assert u[1..][0] == '0' && u[1..][1] == '0';
      assert u[1..][2] == HexChar(c as int / 16) && u[1..][3] == HexChar(c as int % 16);
      assert Hex4(u[1..]) == Some(c as nat);
    }
  }

  lemma EscapeSplit(s: string, rest: string)
    requires s != ""
    ensures Escape(s) + "\"" + rest == EscapeChar(s[0]) + (Escape(s[1..]) + "\"" + rest)
  {
  }

  lemma {:induction false} ScanEscaped(s: string, rest: string)
    ensures ScanString(Escape(s) + "\"" + rest) == Some((s, rest))
  {
    if s == "" {
      var t := "\"" + rest;
      assert Escape(s) + "\"" + rest == t && t[1..] == rest;
    } else {
      ScanEscaped(s[1..], rest);
      var t := Escape(s[1..]) + "\"" + rest;
      EscapeSplit(s, rest);
      ScanEscapedChar(s[0], t);
      assert s == [s[0]] + s[1..];
    }
  }

  lemma ScanQuoted(s: string, rest: string)
    ensures Quote(s) + rest != "" && (Quote(s) + rest)[0] == '"'
    ensures ScanString((Quote(s) + rest)[1..]) == Some((s, rest))
  {
    ScanEscaped(s, rest);
    assert (Quote(s) + rest)[1..] == Escape(s) + "\"" + rest;
  }

  /** What may follow a number without extending it. */
  predicate Ends(rest: string) {
    rest == "" || !(IsDigit(rest[0]) || rest[0] in ".eE+-")
  }

  lemma ParseNumberThen(t: string, rest: string)
    requires Ends(rest) && ParseNumber(t).Some?
    ensures ParseNumber(t + rest) == Some((ParseNumber(t).value.0, ParseNumber(t).value.1 + rest))
  {
    var (i, s1) := ScanInt(t).value;
    var (f, s2) := ScanFraction(s1);
    var (e, s3) := ScanExponent(s2);
    ScanIntThen(t, rest);
    ScanFractionThen(s1, rest);
    ScanExponentThen(s2, rest);
  }

  lemma ScanIntThen(t: string, rest: string)
    requires Ends(rest) && ScanInt(t).Some?
    ensures ScanInt(t + rest) == Some((ScanInt(t).value.0, ScanInt(t).value.1 + rest))
  {
    var s := t + rest;
    var k := if t[0] == '-' then 1 else 0;
    assert s[..k] == t[..k] && s[..k + 1] == t[..k + 1];
    assert s[k..] == t[k..] + rest && s[k + 1..] == t[k + 1..] + rest;
    DigitsThen(t[k..], rest);
  }

  lemma ScanFractionThen(t: string, rest: string)
    requires Ends(rest)
    ensures ScanFraction(t + rest) == (ScanFraction(t).0, ScanFraction(t).1 + rest)
  {
    var s := t + rest;
    if t == "" {
      assert s == rest;
    } else {
      assert s[1..] == t[1..] + rest;
      DigitsThen(t[1..], rest);
    }
  }

  lemma ScanExponentThen(t: string, rest: string)
    requires Ends(rest)
    ensures ScanExponent(t + rest) == (ScanExponent(t).0, ScanExponent(t).1 + rest)
  {
    hide Digits;
    var s := t + rest;
    if t == "" {
      assert s == rest;
    } else if t[0] == 'e' || t[0] == 'E' {
      var k := if |t| > 1 && (t[1] == '+' || t[1] == '-') then 2 else 1;
      assert k == if |s| > 1 && (s[1] == '+' || s[1] == '-') then 2 else 1;
      if |t| > k && IsDigit(t[k]) {
        assert s[..k] == t[..k] && s[k..] == t[k..] + rest;
        DigitsThen(t[k..], rest);
      }
    }
  }

  lemma ScanPlainInt(negative: bool, d: string)
    requires AllDigits(d) && d != "" && (d[0] == '0' ==> d == "0")
    ensures ScanInt(if negative then "-" + d else d) == Some((if negative then "-" + d else d, ""))
  {
    var t := if negative then "-" + d else d;
    var k := if negative then 1 else 0;
    DigitsAll(d);
    assert t[k..] == d && t[..k] + d == t;
    if d == "0" {
      assert t[..k + 1] == t && t[k + 1..] == "";
    }
  }

  lemma ParseScanned(t: string)
    requires ScanInt(t) == Some((t, ""))
    ensures ParseNumber(t) == Some((Int(IntValue(t)), ""))
  {
  }

  lemma ParseIntText(n: int, rest: string)
    requires Ends(rest)
    ensures ParseNumber(IntText(n) + rest) == Some((Int(n), rest))
  {
    var m: nat := if n < 0 then -n else n;
    var t := IntText(n);
    ValueOfText(m);
    ScanPlainInt(n < 0, NatText(m));
    ParseScanned(t);
    if n < 0 { assert t[1..] == NatText(m); }
    assert IntValue(t) == n;
    ParseNumberThen(t, rest);
    assert "" + rest == rest;
  }

  /** A printed value starts with a character that settles how it is read. */
  lemma EmitHead(v: Json)
    requires IsValue(v)
    ensures Emit(v) != "" && !IsSpace(Emit(v)[0]) && Emit(v)[0] != ']' && Emit(v)[0] != '}'
  {
    match v
    case Float(t) => assert ScanInt(t).Some?;
    case _ =>
  }

  lemma {:induction false} ParseEmitted(v: Json, rest: string)
    requires IsValue(v) && Ends(rest)
    ensures ParseValue(Emit(v) + rest) == Some((v, rest))
    decreases v, 1
  {
    match v
    case Arr(xs) =>
      if xs != [] { ParseEmittedItems(xs, rest); }
      ParseEmittedArray(xs, rest);
    case Obj(ps) =>
      if ps != [] { ParseEmittedPairs(ps, rest); }
      ParseEmittedObject(ps, rest);
    case _ => ParseEmittedScalar(v, rest);
  }

  lemma ParseEmittedScalar(v: Json, rest: string)
    requires IsValue(v) && Ends(rest) && !v.Arr? && !v.Obj?
    ensures ParseValue(Emit(v) + rest) == Some((v, rest))
  {
    var s := Emit(v) + rest;
    match v
    case Null => assert s[..4] == "null" && s[4..] == rest;
    case Bool(b) =>
      if b { assert s[..4] == "true" && s[4..] == rest; } else { assert s[..5] == "false" && s[5..] == rest; }
    case Int(n) =>
      ParseIntText(n, rest);
      NumberHead(s);
    case Float(t) =>
      ParseNumberThen(t, rest);
      assert "" + rest == rest;
      NumberHead(s);
    case Str(x) => ScanQuoted(x, rest);
  }

  lemma NumberHead(s: string)
    requires ParseNumber(s).Some?
    ensures ParseValue(s) == ParseNumber(s)
  {
    assert s != "" && (s[0] == '-' || IsDigit(s[0]));
    if |s| >= 4 { assert s[..4][0] == s[0]; }
    if |s| >= 5 { assert s[..5][0] == s[0]; }
  }

  /** A `[` hands over to the elements unless a `]` follows. */
  lemma ParseOpenBracket(t: string)
    requires t != "" && !IsSpace(t[0]) && t[0] != ']'
    ensures ParseValue("[" + t) == match ParseItems(t)
            case Some((xs, rest)) => Some((Arr(xs), rest))
            case None => None
  {
    assert ("[" + t)[1..] == t && Skip(t) == t;
  }

  lemma ParseEmptyArray(rest: string)
    ensures ParseValue("[]" + rest) == Some((Arr([]), rest))
  {
    var s := "[]" + rest;
    assert s[1..] == "]" + rest && s[1..][1..] == rest;
    assert Skip(s[1..]) == s[1..];
  }

  lemma BracketSplit(xs: seq<Json>, rest: string)
    ensures Emit(Arr(xs)) + rest == "[" + (EmitItems(xs) + "]" + rest)
    ensures xs == [] ==> Emit(Arr(xs)) == "[]"
    ensures xs != [] && IsValue(xs[0]) ==> EmitItems(xs) != "" && EmitItems(xs)[0] == Emit(xs[0])[0]
  {
    if xs != [] && IsValue(xs[0]) {
      EmitHead(xs[0]);
    }
  }

  lemma ParseEmittedArray(xs: seq<Json>, rest: string)
    requires xs != [] ==> IsValue(xs[0])
    requires xs != [] ==> ParseItems(EmitItems(xs) + "]" + rest) == Some((xs, rest))
    ensures ParseValue(Emit(Arr(xs)) + rest) == Some((Arr(xs), rest))
  {
    BracketSplit(xs, rest);
    if xs == [] {
      ParseEmptyArray(rest);
    } else {
      EmitHead(xs[0]);
      ParseOpenBracket(EmitItems(xs) + "]" + rest);
    }
  }

  /** A `{` hands over to the members unless a `}` follows. */
  lemma ParseOpenBrace(t: string)
    requires t != "" && !IsSpace(t[0]) && t[0] != '}'
    ensures ParseValue("{" + t) == match ParsePairs(t)
            case Some((ps, rest)) => if UniqueKeys(ps) then Some((Obj(ps), rest)) else None
            case None => None
  {
    assert ("{" + t)[1..] == t && Skip(t) == t;
  }

  lemma ParseEmptyObject(rest: string)
    ensures ParseValue("{}" + rest) == Some((Obj([]), rest))
  {
    var s := "{}" + rest;
    assert s[1..] == "}" + rest && s[1..][1..] == rest;
    assert Skip(s[1..]) == s[1..];
  }

  lemma ParseEmittedObject(ps: seq<Member>, rest: string)
    requires UniqueKeys(ps)
    requires ps != [] ==> ParsePairs(EmitPairs(ps) + "}" + rest) == Some((ps, rest))
    ensures ParseValue(Emit(Obj(ps)) + rest) == Some((Obj(ps), rest))
  {
    if ps == [] {
      ParseEmptyObject(rest);
      assert Emit(Obj(ps)) == "{}";
    } else {
      var t := EmitPairs(ps) + "}" + rest;
      PairsHead(ps);
      ParseOpenBrace(t);
      BraceSplit(ps, rest);
    }
  }

  lemma BraceSplit(ps: seq<Member>, rest: string)
    requires ps != []
    ensures Emit(Obj(ps)) + rest == "{" + (EmitPairs(ps) + "}" + rest)
  {
  }

  /** What follows the first element in a printed array. */
  ghost function AfterItem(xs: seq<Json>, rest: string): (r: string)
    requires xs != []
    ensures r != "" && r[0] == if |xs| == 1 then ']' else ','
  {
    if |xs| == 1 then "]" + rest else "," + (EmitItems(xs[1..]) + "]" + rest)
  }

  lemma EmitItemsSplit(xs: seq<Json>, rest: string)
    requires xs != []
    ensures EmitItems(xs) + "]" + rest == Emit(xs[0]) + AfterItem(xs, rest)
  {
  }

  /** Reading the first element of an array leaves the text that follows it. */
  lemma ParseFirstItem(s: string, v: Json, tail: string)
    requires tail != "" && (tail[0] == ']' || tail[0] == ',')
    requires ParseValue(s) == Some((v, tail))
    ensures ParseItems(s) ==
            if tail[0] == ']' then Some(([v], tail[1..]))
            else match ParseItems(Skip(tail[1..]))
              case Some((vs, rest)) => Some(([v] + vs, rest))
              case None => None
  {
    assert Skip(tail) == tail;
  }

  lemma AfterItemComma(xs: seq<Json>, rest: string)
    requires |xs| > 1 && IsValue(xs[1])
    ensures Skip(AfterItem(xs, rest)[1..]) == EmitItems(xs[1..]) + "]" + rest
  {
    var more := EmitItems(xs[1..]) + "]" + rest;
    EmitHead(xs[1]);
    assert more[0] == Emit(xs[1])[0];
    assert AfterItem(xs, rest)[1..] == more;
  }

  lemma ItemsFromRest(xs: seq<Json>, rest: string)
    requires xs != [] && (|xs| > 1 ==> IsValue(xs[1]))
    requires ParseValue(Emit(xs[0]) + AfterItem(xs, rest)) == Some((xs[0], AfterItem(xs, rest)))
    requires |xs| > 1 ==> ParseItems(EmitItems(xs[1..]) + "]" + rest) == Some((xs[1..], rest))
    ensures ParseItems(EmitItems(xs) + "]" + rest) == Some((xs, rest))
  {
    hide Emit, EmitItems, ParseItems, ParseValue, Skip, IsValue;
    var tail := AfterItem(xs, rest);
    EmitItemsSplit(xs, rest);
    ParseFirstItem(Emit(xs[0]) + tail, xs[0], tail);
    if |xs| == 1 {
      assert tail[1..] == rest && xs == [xs[0]];
    } else {
      AfterItemComma(xs, rest);
      assert xs == [xs[0]] + xs[1..];
    }
  }

  lemma {:induction false} ParseEmittedItems(xs: seq<Json>, rest: string)
    requires xs != [] && forall i | 0 <= i < |xs| :: IsValue(xs[i])
    ensures ParseItems(EmitItems(xs) + "]" + rest) == Some((xs, rest))
    decreases xs, 0
  {
    ParseEmitted(xs[0], AfterItem(xs, rest));
    if |xs| > 1 {
      ParseEmittedItems(xs[1..], rest);
    }
    ItemsFromRest(xs, rest);
  }

  lemma PairsFromRest(ps: seq<Member>, rest: string)
    requires ps != [] && IsValue(ps[0].value)
    requires ParseValue(Emit(ps[0].value) + AfterFirst(ps, rest)) == Some((ps[0].value, AfterFirst(ps, rest)))
    requires |ps| > 1 ==> ParsePairs(EmitPairs(ps[1..]) + "}" + rest) == Some((ps[1..], rest))
    ensures ParsePairs(EmitPairs(ps) + "}" + rest) == Some((ps, rest))
  {
    hide Emit, EmitPairs, Quote, ParsePairs, ParseValue, Skip, IsValue;
    var tail := AfterFirst(ps, rest);
    ParseEmittedMember(ps[0].key, ps[0].value, tail);
    EmitPairsSplit(ps, rest);
    if |ps| == 1 {
      LastMember(ps, rest);
      assert ps == [ps[0]];
    } else {
      AfterComma(ps, rest);
      assert ps == [ps[0]] + ps[1..];
    }
  }

  lemma {:induction false} ParseEmittedPairs(ps: seq<Member>, rest: string)
    requires ps != [] && forall i | 0 <= i < |ps| :: IsValue(ps[i].value)
    ensures ParsePairs(EmitPairs(ps) + "}" + rest) == Some((ps, rest))
    decreases ps, 0
  {
    ParseEmitted(ps[0].value, AfterFirst(ps, rest));
    if |ps| > 1 {
      ParseEmittedPairs(ps[1..], rest);
    }
    PairsFromRest(ps, rest);
  }

  /** What follows the first member in a printed object. */
  ghost function AfterFirst(ps: seq<Member>, rest: string): (r: string)
    requires ps != []
    ensures r != "" && r[0] == if |ps| == 1 then '}' else ','
  {
    EmitMore(ps[1..]) + "}" + rest
  }

  lemma LastMember(ps: seq<Member>, rest: string)
    requires |ps| == 1
    ensures AfterFirst(ps, rest)[1..] == rest
  {
    assert "" + "}" + rest == "}" + rest;
  }

  lemma AfterComma(ps: seq<Member>, rest: string)
    requires |ps| > 1
    ensures Skip(AfterFirst(ps, rest)[1..]) == EmitPairs(ps[1..]) + "}" + rest
  {
    PairsHead(ps[1..]);
    CommaTail(EmitPairs(ps[1..]), rest);
  }

  lemma CommaTail(e: string, rest: string)
    requires e != "" && !IsSpace(e[0])
    ensures Skip(("," + e + "}" + rest)[1..]) == e + "}" + rest
  {
    assert ("," + e + "}" + rest)[1..] == e + "}" + rest;
  }

  lemma EmitPairsSplit(ps: seq<Member>, rest: string)
    requires ps != []
    ensures EmitPairs(ps) + "}" + rest
            == Quote(ps[0].key) + (":" + (Emit(ps[0].value) + AfterFirst(ps, rest)))
  {
    Regroup(Quote(ps[0].key), Emit(ps[0].value), EmitMore(ps[1..]), rest);
  }

  lemma Regroup(q: string, w: string, e: string, rest: string)
    ensures q + ":" + w + e + "}" + rest == q + (":" + (w + (e + "}" + rest)))
  {
  }

  lemma PairsHead(ps: seq<Member>)
    requires ps != []
    ensures EmitPairs(ps) != "" && EmitPairs(ps)[0] == '"'
  {
    assert Quote(ps[0].key)[0] == '"';
  }

  /** Reading the first member of an object leaves the text that follows it. */
  lemma ParseEmittedMember(k: string, v: Json, tail: string)
    requires IsValue(v) && tail != "" && (tail[0] == '}' || tail[0] == ',')
    requires ParseValue(Emit(v) + tail) == Some((v, tail))
    ensures ParsePairs(Quote(k) + (":" + (Emit(v) + tail))) ==
            if tail[0] == '}' then Some(([Member(k, v)], tail[1..]))
            else match ParsePairs(Skip(tail[1..]))
              case Some((ps, rest)) => Some(([Member(k, v)] + ps, rest))
              case None => None
  {
    var body := ":" + (Emit(v) + tail);
    ScanQuoted(k, body);
    EmitHead(v);
    assert body[1..] == Emit(v) + tail;
    assert (Emit(v) + tail)[0] == Emit(v)[0];
    assert Skip(Emit(v) + tail) == Emit(v) + tail;
    assert Skip(body) == body && Skip(tail) == tail;
  }
}
