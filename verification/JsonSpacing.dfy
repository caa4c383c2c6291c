/** What the two readers make of a JSON document: white space between its tokens (section 2 of
  RFC 8259) changes nothing, the strict reader refuses a repeated key and a constant such as NaN,
  and the tolerant one keeps the last value of a repeated key and takes the constants. */
module JsonSpacing {
  import opened Prelude
  import opened Numerals
  import opened CanonicalJson
  import opened JsonTheorems
  import opened JsonReaders

  const CONSTANTS: seq<string> := ["NaN", "Infinity", "-Infinity"]

  /** What a document can spell: keys may repeat, a number may be one of the constants. */
  ghost predicate Spelled(v: Json) {
    match v
    case Float(t) => FloatText(t) || t in CONSTANTS
    case Arr(xs) => forall i | 0 <= i < |xs| :: Spelled(xs[i])
    case Obj(ps) => forall i | 0 <= i < |ps| :: Spelled(ps[i].value)
    case _ => true
  }

  /** What a reader makes of it. */
  ghost function Meaning(v: Json, strict: bool): Option<Json>
    decreases v, 1
  {
    match v
    case Float(t) => if strict && t in CONSTANTS then None else Some(v)
    case Arr(xs) =>
      (match MeaningItems(xs, strict)
       case Some(ys) => Some(Arr(ys))
       case None => None)
    case Obj(ps) =>
      (match MeaningPairs(ps, strict)
       case Some(qs) => if strict && !UniqueKeys(qs) then None else Some(Obj(LastWins(qs)))
       case None => None)
    case _ => Some(v)
  }

  ghost function MeaningItems(xs: seq<Json>, strict: bool): Option<seq<Json>>
    decreases xs, 0
  {
    if xs == [] then Some([])
    else
      match (Meaning(xs[0], strict), MeaningItems(xs[1..], strict))
      case (Some(y), Some(ys)) => Some([y] + ys)
      case _ => None
  }

  ghost function MeaningPairs(ps: seq<Member>, strict: bool): Option<seq<Member>>
    decreases ps, 0
  {
    if ps == [] then Some([])
    else
      match (Meaning(ps[0].value, strict), MeaningPairs(ps[1..], strict))
      case (Some(y), Some(qs)) => Some([Member(ps[0].key, y)] + qs)
      case _ => None
  }

  ghost function Read(s: string, strict: bool): Option<(Json, string)> {
    if strict then ParseValue(s) else TolerantValue(s)
  }

  ghost function ReadItems(s: string, strict: bool): Option<(seq<Json>, string)> {
    if strict then ParseItems(s) else TolerantItems(s)
  }

  ghost function ReadPairs(s: string, strict: bool): Option<(seq<Member>, string)> {
    if strict then ParsePairs(s) else TolerantPairs(s)
  }

  /** The outcome of reading a thing that `rest` follows. */
  ghost function Then<T>(meaning: Option<T>, rest: string): Option<(T, string)> {
    match meaning
    case Some(x) => Some((x, rest))
    case None => None
  }

  ghost predicate White(c: char) { c == ' ' || c == '\t' || c == '\n' || c == '\r' }

  ghost predicate AllWhite(w: string) { forall i | 0 <= i < |w| :: White(w[i]) }

  /** A value printed with the white space `w` before and after every inner token. */
  ghost function Spaced(v: Json, w: string): string
    decreases v, 1
  {
    match v
    case Arr(xs) => "[" + w + SpacedItems(xs, w) + "]"
    case Obj(ps) => "{" + w + SpacedPairs(ps, w) + "}"
    case _ => Emit(v)
  }

  ghost function SpacedItems(xs: seq<Json>, w: string): string
    decreases xs, 0
  {
    if xs == [] then ""
    else Spaced(xs[0], w) + w + if |xs| == 1 then "" else "," + w + SpacedItems(xs[1..], w)
  }

  ghost function SpacedPairs(ps: seq<Member>, w: string): string
    decreases ps, 0
  {
    if ps == [] then ""
    else Quote(ps[0].key) + w + ":" + w + Spaced(ps[0].value, w) + w + SpacedMore(ps[1..], w)
  }

  ghost function SpacedMore(ps: seq<Member>, w: string): string
    decreases ps, 1
  {
    if ps == [] then "" else "," + w + SpacedPairs(ps, w)
  }

  // ---------------------------------------------------------------------- skipping

  lemma {:induction false} SkipWhite(w: string, t: string)
    requires AllWhite(w) && (t == "" || !White(t[0]))
    ensures Skip(w + t) == t
  {
    if w == "" {
      assert w + t == t;
    } else {
      SkipWhite(w[1..], t);
      assert (w + t)[1..] == w[1..] + t;
    }
  }

  /** Exactly four characters are white space: with any other before or after it a text is
    refused. */
  lemma WhiteExact(c: char)
    ensures StrictLoads([c] + "null") == Some(Null) <==> White(c)
    ensures StrictLoads("null" + [c]) == Some(Null) <==> White(c)
  {
    NullThen("");
    NullThen([c]);
    if White(c) {
      SkipWhite([c], "null");
      SkipWhite([c], "");
      assert [c] + "" == [c];
    } else {
      NotSkipped(c, "null");
      NotSkipped(c, "");
      assert [c] + "" == [c];
      NotNull(c);
    }
  }

  lemma NullThen(rest: string)
    ensures ParseValue("null" + rest) == Some((Null, rest)) && Skip("null" + rest) == "null" + rest
    ensures "null" + "" == "null"
  {
    var s := "null" + rest;
    assert s[..4] == "null" && s[4..] == rest;
  }

  lemma NotSkipped(c: char, t: string)
    requires !White(c)
    ensures Skip([c] + t) == [c] + t
  {
  }

  lemma NotNull(c: char)
    requires !White(c)
    ensures match ParseValue([c] + "null") case Some((v, rest)) => v != Null || Skip(rest) != "" case None => true
  {
    var s := [c] + "null";
    assert s[..4][1] == s[1] == 'n' && "null"[1] == 'u' && "true"[1] == 'r';
    assert s[..5][1] == 'n' && "false"[1] == 'a';
  }

  lemma EndsWhite(w: string, t: string)
    requires AllWhite(w) && t != "" && (t[0] == ',' || t[0] == ']' || t[0] == '}' || t[0] == ':')
    ensures Ends(w + t) && w + t != ""
  {
    if w != "" { assert (w + t)[0] == w[0]; } else { assert w + t == t; }
  }

  lemma SpacedHead(v: Json, w: string)
    requires Spelled(v)
    ensures Spaced(v, w) != "" && !White(Spaced(v, w)[0]) && Spaced(v, w)[0] != ']' && Spaced(v, w)[0] != '}'
  {
    match v
    case Float(t) => if t !in CONSTANTS { EmitHead(v); }
    case Arr(_) =>
    case Obj(_) =>
    case _ => EmitHead(v);
  }

  // ------------------------------------------------------------------------ arrays

  /** What follows the first element. */
  ghost function AfterItem(xs: seq<Json>, w: string, rest: string): (r: string)
    requires xs != []
    ensures r != "" && r[0] == if |xs| == 1 then ']' else ','
  {
    if |xs| == 1 then "]" + rest else "," + (w + (SpacedItems(xs[1..], w) + "]" + rest))
  }

  lemma ItemsSplit(xs: seq<Json>, w: string, rest: string)
    requires xs != []
    ensures SpacedItems(xs, w) + "]" + rest == Spaced(xs[0], w) + (w + AfterItem(xs, w, rest))
  {
    if |xs| == 1 {
      assert Spaced(xs[0], w) + w + "" + "]" + rest == Spaced(xs[0], w) + (w + ("]" + rest));
    } else {
      Regroup(Spaced(xs[0], w), w, SpacedItems(xs[1..], w), rest);
    }
  }

  lemma Regroup(a: string, w: string, b: string, rest: string)
    ensures a + w + ("," + w + b) + "]" + rest == a + (w + ("," + (w + (b + "]" + rest))))
  {
  }

  lemma ItemsHead(xs: seq<Json>, w: string, rest: string)
    requires xs != [] && Spelled(xs[0])
    ensures var t := SpacedItems(xs, w) + "]" + rest; t != "" && !White(t[0]) && t[0] != ']'
  {
    ItemsSplit(xs, w, rest);
    SpacedHead(xs[0], w);
  }

  /** Reading one element and what follows it. */
  lemma FirstItem(s: string, v: Option<Json>, w: string, after: string, strict: bool)
    requires AllWhite(w) && after != "" && (after[0] == ']' || after[0] == ',')
    requires Read(s, strict) == Then(v, w + after)
    ensures ReadItems(s, strict)
            == if v.None? then None
               else if after[0] == ']' then Some(([v.value], after[1..]))
               else match ReadItems(Skip(after[1..]), strict)
                 case Some((vs, rest)) => Some(([v.value] + vs, rest))
                 case None => None
  {
    hide ParseValue, TolerantValue, Skip;
    SkipWhite(w, after);
  }

  lemma ItemsFromRest(xs: seq<Json>, w: string, rest: string, strict: bool)
    requires xs != [] && AllWhite(w) && (|xs| > 1 ==> Spelled(xs[1]))
    requires var tail := w + AfterItem(xs, w, rest);
             Read(Spaced(xs[0], w) + tail, strict) == Then(Meaning(xs[0], strict), tail)
    requires |xs| > 1 ==>
               ReadItems(SpacedItems(xs[1..], w) + "]" + rest, strict) == Then(MeaningItems(xs[1..], strict), rest)
    ensures ReadItems(SpacedItems(xs, w) + "]" + rest, strict) == Then(MeaningItems(xs, strict), rest)
  {
    hide Spaced, SpacedItems, Read, ReadItems, Skip, Spelled, Meaning;
    var after := AfterItem(xs, w, rest);
    ItemsSplit(xs, w, rest);
    FirstItem(Spaced(xs[0], w) + (w + after), Meaning(xs[0], strict), w, after, strict);
    if |xs| == 1 {
      assert after[1..] == rest && MeaningItems(xs[1..], strict) == Some([]);
      forall y: Json ensures [y] + [] == [y] {
      }
    } else {
      var more := SpacedItems(xs[1..], w) + "]" + rest;
      ItemsHead(xs[1..], w, rest);
      SkipWhite(w, more);
      assert after[1..] == w + more;
    }
  }

  lemma ArrayFromItems(xs: seq<Json>, w: string, rest: string, strict: bool)
    requires AllWhite(w) && (xs != [] ==> Spelled(xs[0]))
    requires xs != [] ==> ReadItems(SpacedItems(xs, w) + "]" + rest, strict) == Then(MeaningItems(xs, strict), rest)
    ensures Read(Spaced(Arr(xs), w) + rest, strict) == Then(Meaning(Arr(xs), strict), rest)
  {
    hide SpacedItems, ParseItems, TolerantItems, Skip, Spelled;
    var body := SpacedItems(xs, w) + "]" + rest;
    var s := Spaced(Arr(xs), w) + rest;
    assert s[0] == '[' && s[1..] == w + body;
    ItemsBody(xs, w, rest);
    SkipWhite(w, body);
  }

  lemma ItemsBody(xs: seq<Json>, w: string, rest: string)
    requires xs != [] ==> Spelled(xs[0])
    ensures var body := SpacedItems(xs, w) + "]" + rest;
            && body != "" && !White(body[0]) && (body[0] == ']' <==> xs == [])
            && (xs == [] ==> body[1..] == rest)
  {
    hide SpacedItems, Spelled;
    if xs == [] {
      NoItems(w);
      assert "" + "]" + rest == "]" + rest;
    } else {
      ItemsHead(xs, w, rest);
    }
  }

  lemma NoItems(w: string)
    ensures SpacedItems([], w) == "" && SpacedPairs([], w) == ""
  {
  }

  // ----------------------------------------------------------------------- objects

  /** What follows the first member. */
  ghost function AfterPair(ps: seq<Member>, w: string, rest: string): (r: string)
    requires ps != []
    ensures r != "" && r[0] == if |ps| == 1 then '}' else ','
  {
    if |ps| == 1 then "}" + rest else "," + (w + (SpacedPairs(ps[1..], w) + "}" + rest))
  }

  lemma PairsSplit(ps: seq<Member>, w: string, rest: string)
    requires ps != []
    ensures SpacedPairs(ps, w) + "}" + rest
            == Quote(ps[0].key) + (w + (":" + (w + (Spaced(ps[0].value, w) + (w + AfterPair(ps, w, rest))))))
  {
    var q, v := Quote(ps[0].key), Spaced(ps[0].value, w);
    if |ps| == 1 {
      assert SpacedMore(ps[1..], w) == "";
      RegroupLast(q, w, v, rest);
    } else {
      RegroupPair(q, w, v, SpacedPairs(ps[1..], w), rest);
    }
  }

  lemma RegroupLast(q: string, w: string, v: string, rest: string)
    ensures q + w + ":" + w + v + w + "" + "}" + rest == q + (w + (":" + (w + (v + (w + ("}" + rest))))))
  {
  }

  lemma RegroupPair(q: string, w: string, v: string, b: string, rest: string)
    ensures q + w + ":" + w + v + w + ("," + w + b) + "}" + rest
            == q + (w + (":" + (w + (v + (w + ("," + (w + (b + "}" + rest))))))))
  {
    assert q + w + ":" + w + v + w == q + (w + (":" + (w + (v + w))));
    assert ("," + w + b) + "}" + rest == "," + (w + (b + "}" + rest));
  }

  lemma PairsHead(ps: seq<Member>, w: string, rest: string)
    requires ps != []
    ensures var t := SpacedPairs(ps, w) + "}" + rest; t != "" && t[0] == '"'
  {
    hide SpacedPairs, Spaced;
    PairsSplit(ps, w, rest);
    assert Quote(ps[0].key)[0] == '"';
  }

  /** Reading the first member and what follows it. */
  lemma FirstPair(k: string, text: string, v: Option<Json>, w: string, after: string, strict: bool)
    requires AllWhite(w) && after != "" && (after[0] == '}' || after[0] == ',')
    requires text != "" && !White(text[0]) && Read(text + (w + after), strict) == Then(v, w + after)
    ensures ReadPairs(Quote(k) + (w + (":" + (w + (text + (w + after))))), strict)
            == if v.None? then None
               else if after[0] == '}' then Some(([Member(k, v.value)], after[1..]))
               else match ReadPairs(Skip(after[1..]), strict)
                 case Some((ps, rest)) => Some(([Member(k, v.value)] + ps, rest))
                 case None => None
  {
    hide ParseValue, TolerantValue, Skip, ScanString, Escape;
    var value := text + (w + after);
    var colon := ":" + (w + value);
    ScanQuoted(k, w + colon);
    SkipWhite(w, colon);
    assert colon[1..] == w + value;
    assert value[0] == text[0];
    SkipWhite(w, value);
    SkipWhite(w, after);
  }

  lemma PairsFromRest(ps: seq<Member>, w: string, rest: string, strict: bool)
    requires ps != [] && AllWhite(w) && Spelled(ps[0].value)
    requires var tail := w + AfterPair(ps, w, rest);
             Read(Spaced(ps[0].value, w) + tail, strict) == Then(Meaning(ps[0].value, strict), tail)
    requires |ps| > 1 ==>
               ReadPairs(SpacedPairs(ps[1..], w) + "}" + rest, strict) == Then(MeaningPairs(ps[1..], strict), rest)
    ensures ReadPairs(SpacedPairs(ps, w) + "}" + rest, strict) == Then(MeaningPairs(ps, strict), rest)
  {
    hide Spaced, SpacedPairs, Read, ReadPairs, Skip, Spelled, Quote, Meaning;
    var after := AfterPair(ps, w, rest);
    PairsSplit(ps, w, rest);
    SpacedHead(ps[0].value, w);
    FirstPair(ps[0].key, Spaced(ps[0].value, w), Meaning(ps[0].value, strict), w, after, strict);
    if |ps| == 1 {
      assert after[1..] == rest && MeaningPairs(ps[1..], strict) == Some([]);
      forall m: Member ensures [m] + [] == [m] {
      }
    } else {
      var more := SpacedPairs(ps[1..], w) + "}" + rest;
      PairsHead(ps[1..], w, rest);
      SkipWhite(w, more);
      assert after[1..] == w + more;
    }
  }

  lemma ObjectFromPairs(ps: seq<Member>, w: string, rest: string, strict: bool)
    requires AllWhite(w)
    requires ps != [] ==> ReadPairs(SpacedPairs(ps, w) + "}" + rest, strict) == Then(MeaningPairs(ps, strict), rest)
    ensures Read(Spaced(Obj(ps), w) + rest, strict) == Then(Meaning(Obj(ps), strict), rest)
  {
    hide SpacedPairs, ParsePairs, TolerantPairs, Skip, LastWins;
    var body := SpacedPairs(ps, w) + "}" + rest;
    var s := Spaced(Obj(ps), w) + rest;
    assert s[0] == '{' && s[1..] == w + body;
    PairsBody(ps, w, rest);
    SkipWhite(w, body);
    forall qs | UniqueKeys(qs) ensures LastWins(qs) == qs {
      LastWinsUnique(qs);
    }
  }

  lemma PairsBody(ps: seq<Member>, w: string, rest: string)
    ensures var body := SpacedPairs(ps, w) + "}" + rest;
            && body != "" && !White(body[0]) && (body[0] == '}' <==> ps == [])
            && (ps == [] ==> body[1..] == rest)
  {
    hide SpacedPairs;
    if ps == [] {
      NoItems(w);
      assert "" + "}" + rest == "}" + rest;
    } else {
      PairsHead(ps, w, rest);
    }
  }

  // --------------------------------------------------------------------- the values

  lemma ReadScalar(v: Json, rest: string, strict: bool)
    requires Spelled(v) && Ends(rest) && !v.Arr? && !v.Obj?
    ensures Read(Emit(v) + rest, strict) == Then(Meaning(v, strict), rest)
  {
    hide ParseValue, TolerantValue;
    if v.Float? && v.text in CONSTANTS {
      ReadConstant(v.text, rest);
    } else {
      ParseEmittedScalar(v, rest);
      SameValue(Emit(v) + rest);
    }
  }

  lemma ReadConstant(t: string, rest: string)
    requires t in CONSTANTS
    ensures ParseValue(t + rest).None? && TolerantValue(t + rest) == Some((Float(t), rest))
  {
    var s := t + rest;
    assert t == "NaN" || t == "Infinity" || t == "-Infinity";
    assert s[..|t|] == t && s[|t|..] == rest && s[0] == t[0];
    assert |s| >= 4 ==> s[..4][0] == s[0];
    assert |s| >= 5 ==> s[..5][0] == s[0];
    assert |s| >= 3 ==> s[..3][0] == s[0];
    assert |s| >= 8 ==> s[..8][0] == s[0];
    assert t == "-Infinity" ==> s[1] == 'I';
    assert ParseNumber(s).None?;
  }

  lemma {:induction false} ReadSpaced(v: Json, w: string, rest: string, strict: bool)
    requires Spelled(v) && AllWhite(w) && Ends(rest)
    ensures Read(Spaced(v, w) + rest, strict) == Then(Meaning(v, strict), rest)
    decreases v, 1
  {
    hide Read, ReadItems, ReadPairs, Meaning, MeaningItems, MeaningPairs;
    match v
    case Arr(xs) =>
      if xs != [] { ReadSpacedItems(xs, w, rest, strict); }
      ArrayFromItems(xs, w, rest, strict);
    case Obj(ps) =>
      if ps != [] { ReadSpacedPairs(ps, w, rest, strict); }
      ObjectFromPairs(ps, w, rest, strict);
    case _ => ReadScalar(v, rest, strict);
  }

  lemma {:induction false} ReadSpacedItems(xs: seq<Json>, w: string, rest: string, strict: bool)
    requires xs != [] && AllWhite(w) && forall i | 0 <= i < |xs| :: Spelled(xs[i])
    ensures ReadItems(SpacedItems(xs, w) + "]" + rest, strict) == Then(MeaningItems(xs, strict), rest)
    decreases xs, 0
  {
    hide Spaced, SpacedItems, ReadItems, Read, Meaning, MeaningItems;
    EndsWhite(w, AfterItem(xs, w, rest));
    ReadSpaced(xs[0], w, w + AfterItem(xs, w, rest), strict);
    if |xs| > 1 {
      ReadSpacedItems(xs[1..], w, rest, strict);
    }
    ItemsFromRest(xs, w, rest, strict);
  }

  lemma {:induction false} ReadSpacedPairs(ps: seq<Member>, w: string, rest: string, strict: bool)
    requires ps != [] && AllWhite(w) && forall i | 0 <= i < |ps| :: Spelled(ps[i].value)
    ensures ReadPairs(SpacedPairs(ps, w) + "}" + rest, strict) == Then(MeaningPairs(ps, strict), rest)
    decreases ps, 0
  {
    hide Spaced, SpacedPairs, ReadPairs, Read, Meaning, MeaningPairs;
    EndsWhite(w, AfterPair(ps, w, rest));
    ReadSpaced(ps[0].value, w, w + AfterPair(ps, w, rest), strict);
    if |ps| > 1 {
      ReadSpacedPairs(ps[1..], w, rest, strict);
    }
    PairsFromRest(ps, w, rest, strict);
  }

  // ------------------------------------------------------------------ what is meant

  /** Strictly a document means itself when it is a value, and otherwise nothing. */
  lemma {:induction false} MeaningStrict(v: Json)
    requires Spelled(v)
    ensures Meaning(v, true) == if IsValue(v) then Some(v) else None
    decreases v, 1
  {
    match v
    case Float(t) => if t in CONSTANTS { NoFloat(t); }
    case Arr(xs) => MeaningItemsStrict(xs);
    case Obj(ps) =>
      MeaningPairsStrict(ps);
      if UniqueKeys(ps) { LastWinsUnique(ps); }
    case _ =>
  }

  lemma NoFloat(t: string)
    requires t in CONSTANTS
    ensures !FloatText(t)
  {
    assert t == "NaN" || t == "Infinity" || t == "-Infinity";
  }

  lemma {:induction false} MeaningItemsStrict(xs: seq<Json>)
    requires forall i | 0 <= i < |xs| :: Spelled(xs[i])
    ensures MeaningItems(xs, true) == if forall i | 0 <= i < |xs| :: IsValue(xs[i]) then Some(xs) else None
    decreases xs, 0
  {
    hide IsValue, Spelled, Meaning;
    if xs != [] {
      MeaningStrict(xs[0]);
      MeaningItemsStrict(xs[1..]);
      assert xs == [xs[0]] + xs[1..];
      assert forall i | 0 < i < |xs| :: xs[i] == xs[1..][i - 1];
    }
  }

  lemma {:induction false} MeaningPairsStrict(ps: seq<Member>)
    requires forall i | 0 <= i < |ps| :: Spelled(ps[i].value)
    ensures MeaningPairs(ps, true) == if forall i | 0 <= i < |ps| :: IsValue(ps[i].value) then Some(ps) else None
    decreases ps, 0
  {
    hide IsValue, Spelled, Meaning;
    if ps != [] {
      MeaningStrict(ps[0].value);
      MeaningPairsStrict(ps[1..]);
      assert ps == [ps[0]] + ps[1..];
      assert forall i | 0 < i < |ps| :: ps[i] == ps[1..][i - 1];
    }
  }

  ghost predicate LastOf(ps: seq<Member>, i: int) {
    0 <= i < |ps| && forall k | i < k < |ps| :: ps[k].key != ps[i].key
  }

  /** `r` is `v` with a dict built from the pairs of every object: each key once, with the value that
    came last. */
  ghost predicate BuiltFrom(v: Json, r: Json)
    decreases v
  {
    match v
    case Arr(xs) => r.Arr? && |r.items| == |xs| && forall i | 0 <= i < |xs| :: BuiltFrom(xs[i], r.items[i])
    case Obj(ps) =>
      && r.Obj? && UniqueKeys(r.pairs) && Keys(r.pairs) == Keys(ps)
      && forall i, j | 0 <= i < |ps| && LastOf(ps, i) && 0 <= j < |r.pairs| && r.pairs[j].key == ps[i].key ::
           BuiltFrom(ps[i].value, r.pairs[j].value)
    case _ => r == v
  }

  /** Each key once, with the member that came last: what `r` is to the pairs `ps`. */
  ghost predicate Latest(ps: seq<Member>, r: seq<Member>) {
    && Keys(r) == Keys(ps)
    && forall i, j | LastOf(ps, i) && 0 <= j < |r| && r[j].key == ps[i].key :: r[j] == ps[i]
  }

  lemma {:induction false} LastWinsExact(ps: seq<Member>)
    ensures Latest(ps, LastWins(ps))
  {
    hide Latest, Store, UniqueKeys;
    if ps == [] {
      LatestOfNone();
    } else {
      var init, m := ps[..|ps| - 1], ps[|ps| - 1];
      LastWinsExact(init);
      StoreExact(LastWins(init), m);
      LatestSnoc(init, LastWins(init), m, LastWins(ps));
      assert ps == init + [m];
    }
  }

  lemma LatestOfNone()
    ensures Latest([], [])
  {
  }

  lemma LatestSnoc(init: seq<Member>, before: seq<Member>, m: Member, r: seq<Member>)
    requires Latest(init, before) && Keys(r) == Keys(before) + {m.key}
    requires forall j | 0 <= j < |r| :: r[j] == m || (j < |before| && r[j] == before[j])
    requires forall j | 0 <= j < |r| && r[j].key == m.key :: r[j] == m
    ensures Latest(init + [m], r)
  {
    var ps := init + [m];
    forall i, j | LastOf(ps, i) && 0 <= j < |r| && r[j].key == ps[i].key ensures r[j] == ps[i] {
      if i < |init| {
        assert ps[|init|] == m;
        LastOfInit(init, m, i);
      }
    }
  }

  lemma LastOfInit(init: seq<Member>, m: Member, i: nat)
    requires i < |init| && LastOf(init + [m], i)
    ensures LastOf(init, i) && m.key != init[i].key
  {
    var ps := init + [m];
    assert ps[|init|] == m && forall k | 0 <= k < |init| :: ps[k] == init[k];
  }

  lemma StoreExact(ps: seq<Member>, m: Member)
    requires UniqueKeys(ps)
    ensures Keys(Store(ps, m)) == Keys(ps) + {m.key}
    ensures forall j | 0 <= j < |Store(ps, m)| :: Store(ps, m)[j] == m || (j < |ps| && Store(ps, m)[j] == ps[j])
    ensures forall j | 0 <= j < |Store(ps, m)| && Store(ps, m)[j].key == m.key :: Store(ps, m)[j] == m
  {
    var r := Store(ps, m);
    forall p | p in ps ensures p.key in Keys(r) {
      var i :| 0 <= i < |ps| && ps[i] == p;
      assert r[i] in r;
    }
  }

  /** Tolerantly every document is read, as the values built from it. */
  lemma {:induction false} MeaningTolerant(v: Json)
    ensures Meaning(v, false).Some? && BuiltFrom(v, Meaning(v, false).value)
    decreases v, 1
  {
    match v
    case Arr(xs) => MeaningItemsTolerant(xs);
    case Obj(ps) =>
      MeaningPairsTolerant(ps);
      var qs := MeaningPairs(ps, false).value;
      LastWinsExact(qs);
      BuiltPairs(ps, qs);
    case _ =>
  }

  lemma BuiltPairs(ps: seq<Member>, qs: seq<Member>)
    requires |qs| == |ps|
    requires forall i | 0 <= i < |ps| :: qs[i].key == ps[i].key && BuiltFrom(ps[i].value, qs[i].value)
    requires Latest(qs, LastWins(qs))
    ensures BuiltFrom(Obj(ps), Obj(LastWins(qs)))
  {
    hide LastWins;
    forall p | p in ps ensures p.key in Keys(qs) {
      var i :| 0 <= i < |ps| && ps[i] == p;
      assert qs[i] in qs;
    }
    forall q | q in qs ensures q.key in Keys(ps) {
      var i :| 0 <= i < |qs| && qs[i] == q;
      assert ps[i] in ps;
    }
    forall i | 0 <= i < |ps| && LastOf(ps, i) ensures LastOf(qs, i) {
    }
  }

  lemma {:induction false} MeaningItemsTolerant(xs: seq<Json>)
    ensures MeaningItems(xs, false).Some?
    ensures var ys := MeaningItems(xs, false).value;
            |ys| == |xs| && forall i | 0 <= i < |xs| :: BuiltFrom(xs[i], ys[i])
    decreases xs, 0
  {
    hide BuiltFrom, Meaning;
    if xs != [] {
      MeaningTolerant(xs[0]);
      MeaningItemsTolerant(xs[1..]);
    }
  }

  lemma {:induction false} MeaningPairsTolerant(ps: seq<Member>)
    ensures MeaningPairs(ps, false).Some?
    ensures var qs := MeaningPairs(ps, false).value;
            |qs| == |ps| && forall i | 0 <= i < |ps| :: qs[i].key == ps[i].key && BuiltFrom(ps[i].value, qs[i].value)
    decreases ps, 0
  {
    hide BuiltFrom, Meaning;
    if ps != [] {
      MeaningTolerant(ps[0].value);
      MeaningPairsTolerant(ps[1..]);
    }
  }

  // ----------------------------------------------------------------- the main results

  /** A document with any white space before, after and between its tokens: strictly it is read as
    itself when it is a value, no key repeated and no constant in it, and refused otherwise;
    tolerantly it is always read, as the values built from it. */
  lemma SpacedLoads(v: Json, w: string)
    requires Spelled(v) && AllWhite(w)
    ensures var text := w + (Spaced(v, w) + w);
            && StrictLoads(text) == (if IsValue(v) then Some(v) else None)
            && TolerantLoads(text).Some? && BuiltFrom(v, TolerantLoads(text).value)
  {
    hide ParseValue, TolerantValue, Meaning, Spaced, IsValue, Spelled, BuiltFrom;
    SpacedHead(v, w);
    SkipWhite(w, Spaced(v, w) + w);
    WhiteEnds(w);
    ReadSpaced(v, w, w, true);
    ReadSpaced(v, w, w, false);
    MeaningStrict(v);
    MeaningTolerant(v);
    SkipWhite(w, "");
    assert w + "" == w;
  }

  lemma WhiteEnds(w: string)
    requires AllWhite(w)
    ensures Ends(w)
  {
  }
}
