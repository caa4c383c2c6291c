/** The parsers that take rows in any order, reject duplicates and sort
  (stock_tracker/collector/free_stockdb.py, stock_tracker/collector/hithink_finance.py). */
module SortedBarParsers {
  import opened Prelude
  import opened Numerals
  import opened CanonicalJson
  import opened JsonReaders
  import opened Utf8
  import opened Bars
  import opened DateDigits

  type Check = Json -> Option<Bar>

  // ------------------------------------------------------------------ collect and sort

  /** `before` extended by one more row's bar. */
  function Extend(before: Option<seq<Bar>>, last: Option<Bar>): Option<seq<Bar>> {
    if before.None? || last.None? then None else Some(before.value + [last.value])
  }

  /** The bars of all rows, or nothing as soon as one row is rejected. */
  function Collect(check: Check, rows: seq<Json>): Option<seq<Bar>> {
    if rows == [] then Some([])
    else Extend(Collect(check, rows[..|rows| - 1]), check(rows[|rows| - 1]))
  }

  lemma {:induction false} CollectExact(check: Check, rows: seq<Json>)
    ensures Collect(check, rows).None? <==> exists i | 0 <= i < |rows| :: check(rows[i]).None?
    ensures Collect(check, rows).Some? ==>
              && |Collect(check, rows).value| == |rows|
              && forall i | 0 <= i < |rows| :: check(rows[i]) == Some(Collect(check, rows).value[i])
  {
    if rows != [] {
      var n := |rows| - 1;
      CollectExact(check, rows[..n]);
      if Collect(check, rows[..n]).None? {
        var i :| 0 <= i < n && check(rows[..n][i]).None?;
        assert check(rows[i]).None?;
      } else {
        assert forall i | 0 <= i < n :: rows[..n][i] == rows[i];
      }
    }
  }

  function Stamps(bars: seq<Bar>): set<int> { set b | b in bars :: b.timestamp }

  function Insert(b: Bar, bars: seq<Bar>): seq<Bar> {
    if bars == [] || b.timestamp <= bars[0].timestamp then [b] + bars else [bars[0]] + Insert(b, bars[1..])
  }

  /** `bars.sort(key=lambda bar: bar.timestamp)`. */
  function Sort(bars: seq<Bar>): seq<Bar> {
    if bars == [] then [] else Insert(bars[0], Sort(bars[1..]))
  }

  /** What both parsers make of their rows. */
  function Arranged(check: Check, rows: seq<Json>): Option<seq<Bar>> {
    var bars := Collect(check, rows);
    if bars.None? || |Stamps(bars.value)| != |bars.value| then None else Some(Sort(bars.value))
  }

  ghost predicate Distinct(bars: seq<Bar>) {
    forall i, j | 0 <= i < j < |bars| :: bars[i].timestamp != bars[j].timestamp
  }

  lemma StampsSnoc(bars: seq<Bar>)
    requires bars != []
    ensures Stamps(bars) == Stamps(bars[..|bars| - 1]) + {bars[|bars| - 1].timestamp}
  {
    var n := |bars| - 1;
    assert bars == bars[..n] + [bars[n]];
  }

  lemma DistinctSnoc(bars: seq<Bar>)
    requires bars != []
    ensures var n := |bars| - 1;
            Distinct(bars) <==> Distinct(bars[..n]) && bars[n].timestamp !in Stamps(bars[..n])
  {
    var n := |bars| - 1;
    var before := bars[..n];
    if bars[n].timestamp in Stamps(before) {
      var b :| b in before && b.timestamp == bars[n].timestamp;
      var i :| 0 <= i < n && before[i] == b;
      assert bars[i].timestamp == bars[n].timestamp;
    } else {
      forall i | 0 <= i < n ensures bars[i].timestamp != bars[n].timestamp {
        assert bars[i] == before[i];
      }
      assert forall i | 0 <= i < n :: bars[i] == before[i];
    }
  }

  /** Counting the distinct timestamps finds every duplicate. */
  lemma {:induction false} CountDistinct(bars: seq<Bar>)
    ensures |Stamps(bars)| <= |bars|
    ensures |Stamps(bars)| == |bars| <==> Distinct(bars)
  {
    if bars != [] {
      hide Distinct, Stamps;
      var n := |bars| - 1;
      CountDistinct(bars[..n]);
      StampsSnoc(bars);
      DistinctSnoc(bars);
      if bars[n].timestamp in Stamps(bars[..n]) {
        assert Stamps(bars) == Stamps(bars[..n]);
      }
    }
  }

  ghost predicate Fresh(t: int, bars: seq<Bar>) { forall i | 0 <= i < |bars| :: bars[i].timestamp != t }

  lemma {:induction false} InsertKeeps(b: Bar, bars: seq<Bar>)
    ensures multiset(Insert(b, bars)) == multiset(bars) + multiset{b}
  {
    if bars != [] && b.timestamp > bars[0].timestamp {
      InsertKeeps(b, bars[1..]);
      assert bars == [bars[0]] + bars[1..];
    }
  }

  lemma {:induction false} InsertAscends(b: Bar, bars: seq<Bar>, low: int)
    requires Ascending(bars) && Fresh(b.timestamp, bars)
    requires low < b.timestamp && (bars != [] ==> low < bars[0].timestamp)
    ensures Ascending(Insert(b, bars)) && low < Insert(b, bars)[0].timestamp
  {
    if bars != [] && b.timestamp > bars[0].timestamp {
      InsertAscends(b, bars[1..], bars[0].timestamp);
    }
  }

  lemma {:induction false} SortKeeps(bars: seq<Bar>)
    ensures multiset(Sort(bars)) == multiset(bars)
  {
    if bars != [] {
      SortKeeps(bars[1..]);
      InsertKeeps(bars[0], Sort(bars[1..]));
      assert bars == [bars[0]] + bars[1..];
    }
  }

  lemma FreshTransfers(t: int, a: seq<Bar>, b: seq<Bar>)
    requires multiset(a) == multiset(b) && Fresh(t, b)
    ensures Fresh(t, a)
  {
    forall i | 0 <= i < |a| ensures a[i].timestamp != t {
      assert a[i] in multiset(b);
    }
  }

  lemma {:induction false} SortAscends(bars: seq<Bar>)
    requires Distinct(bars)
    ensures Ascending(Sort(bars))
  {
    if bars != [] {
      SortAscends(bars[1..]);
      SortKeeps(bars[1..]);
      var rest, t := Sort(bars[1..]), bars[0].timestamp;
      FreshTransfers(t, rest, bars[1..]);
      InsertAscends(bars[0], rest, (if rest != [] && rest[0].timestamp < t then rest[0].timestamp else t) - 1);
    }
  }

  lemma SortSorted(bars: seq<Bar>)
    requires Distinct(bars)
    ensures Ascending(Sort(bars)) && multiset(Sort(bars)) == multiset(bars)
  {
    SortAscends(bars);
    SortKeeps(bars);
  }

  lemma FirstAtMost(a: seq<Bar>, b: seq<Bar>)
    requires Ascending(a) && multiset(a) == multiset(b) && a != [] && b != []
    ensures a[0] == b[0] || a[0].timestamp < b[0].timestamp
  {
    assert b[0] in multiset(a);
    var j :| 0 <= j < |a| && a[j] == b[0];
  }

  lemma Tail<X>(a: seq<X>)
    requires a != []
    ensures multiset(a[1..]) == multiset(a) - multiset{a[0]}
  {
    assert a == [a[0]] + a[1..];
  }

  lemma SameLength<X>(a: seq<X>, b: seq<X>)
    requires multiset(a) == multiset(b)
    ensures |a| == |b|
  {
    assert |multiset(a)| == |a| && |multiset(b)| == |b|;
  }

  /** A multiset of bars has at most one strictly rising arrangement. */
  lemma {:induction false} ArrangementUnique(a: seq<Bar>, b: seq<Bar>)
    requires Ascending(a) && Ascending(b) && multiset(a) == multiset(b)
    ensures a == b
    decreases |a|
  {
    SameLength(a, b);
    if a != [] {
      FirstAtMost(a, b);
      FirstAtMost(b, a);
      Tail(a);
      Tail(b);
      ArrangementUnique(a[1..], b[1..]);
      assert a == [a[0]] + a[1..] && b == [b[0]] + b[1..];
    }
  }

  /** The answer is a list exactly when it is the strictly rising arrangement of all rows' bars. */
  lemma ArrangedExact(check: Check, rows: seq<Json>, bs: seq<Bar>)
    ensures Arranged(check, rows) == Some(bs) <==>
            && Collect(check, rows).Some?
            && Ascending(bs) && multiset(bs) == multiset(Collect(check, rows).value)
  {
    if Collect(check, rows).Some? {
      var bars := Collect(check, rows).value;
      CountDistinct(bars);
      if Distinct(bars) {
        SortSorted(bars);
        if Ascending(bs) && multiset(bs) == multiset(bars) {
          ArrangementUnique(bs, Sort(bars));
        }
      } else if Ascending(bs) && multiset(bs) == multiset(bars) {
        CountDistinct(bs);
        assert Distinct(bs);
        SameStamps(bs, bars);
      }
    }
  }

  /** Parsing fails exactly on a rejected row or on two rows with one timestamp. */
  lemma ArrangedFails(check: Check, rows: seq<Json>)
    ensures Arranged(check, rows).None? <==>
            || (exists i | 0 <= i < |rows| :: check(rows[i]).None?)
            || (exists i, j | 0 <= i < j < |rows| ::
                  check(rows[i]).Some? && check(rows[j]).Some?
                  && check(rows[i]).value.timestamp == check(rows[j]).value.timestamp)
  {
    CollectExact(check, rows);
    if Collect(check, rows).Some? {
      var bars := Collect(check, rows).value;
      CountDistinct(bars);
      if !Distinct(bars) {
        var i, j :| 0 <= i < j < |bars| && bars[i].timestamp == bars[j].timestamp;
        assert check(rows[i]) == Some(bars[i]) && check(rows[j]) == Some(bars[j]);
      } else {
        forall i, j | 0 <= i < j < |rows|
          ensures check(rows[i]).value.timestamp != check(rows[j]).value.timestamp
        {
          assert check(rows[i]) == Some(bars[i]) && check(rows[j]) == Some(bars[j]);
        }
      }
    }
  }

  lemma SameStamps(a: seq<Bar>, b: seq<Bar>)
    requires multiset(a) == multiset(b)
    ensures Stamps(a) == Stamps(b) && |a| == |b|
  {
    SameLength(a, b);
    assert forall x :: x in a <==> x in multiset(a);
    assert forall x :: x in b <==> x in multiset(b);
  }

  // ------------------------------------------------------------------------ permutation

  function Both(a: Option<seq<Bar>>, b: Option<seq<Bar>>): Option<seq<Bar>> {
    if a.None? || b.None? then None else Some(a.value + b.value)
  }

  lemma CollectSnoc(check: Check, rows: seq<Json>, x: Json)
    ensures Collect(check, rows + [x]) == Extend(Collect(check, rows), check(x))
  {
    assert (rows + [x])[..|rows + [x]| - 1] == rows;
  }

  lemma ExtendBoth(a: Option<seq<Bar>>, b: Option<seq<Bar>>, x: Option<Bar>)
    ensures Extend(Both(a, b), x) == Both(a, Extend(b, x))
  {
    if a.Some? && b.Some? && x.Some? {
      assert a.value + b.value + [x.value] == a.value + (b.value + [x.value]);
    }
  }

  lemma {:induction false} CollectConcat(check: Check, a: seq<Json>, b: seq<Json>)
    ensures Collect(check, a + b) == Both(Collect(check, a), Collect(check, b))
  {
    if b == [] {
      assert a + b == a;
      if Collect(check, a).Some? {
        assert Collect(check, a).value + [] == Collect(check, a).value;
      }
    } else {
      var n := |b| - 1;
      CollectConcat(check, a, b[..n]);
      CollectSnoc(check, a + b[..n], b[n]);
      CollectSnoc(check, b[..n], b[n]);
      ExtendBoth(Collect(check, a), Collect(check, b[..n]), check(b[n]));
      assert a + b[..n] + [b[n]] == a + b && b[..n] + [b[n]] == b;
    }
  }

  lemma CollectMiddle(check: Check, p: seq<Json>, x: Json, q: seq<Json>)
    ensures var whole, parts := Collect(check, p + [x] + q), Collect(check, p + q);
            && (whole.None? <==> parts.None? || check(x).None?)
            && (whole.Some? ==> multiset(whole.value) == multiset(parts.value) + multiset{check(x).value})
  {
    CollectConcat(check, p + [x], q);
    CollectSnoc(check, p, x);
    CollectConcat(check, p, q);
  }

  lemma {:induction false} CollectPermutes(check: Check, a: seq<Json>, b: seq<Json>)
    requires multiset(a) == multiset(b)
    ensures Collect(check, a).None? <==> Collect(check, b).None?
    ensures Collect(check, a).Some? ==> multiset(Collect(check, a).value) == multiset(Collect(check, b).value)
    decreases |a|
  {
    SameLength(a, b);
    if a != [] {
      var x, rest := a[0], a[1..];
      Tail(a);
      var p, q := Cut(b, x);
      CollectPermutes(check, rest, p + q);
      CollectMiddle(check, p, x, q);
      CollectFront(check, a);
    }
  }

  lemma CollectFront(check: Check, a: seq<Json>)
    requires a != []
    ensures var whole, rest := Collect(check, a), Collect(check, a[1..]);
            && (whole.None? <==> rest.None? || check(a[0]).None?)
            && (whole.Some? ==> multiset(whole.value) == multiset(rest.value) + multiset{check(a[0]).value})
  {
    CollectMiddle(check, [], a[0], a[1..]);
    assert [] + [a[0]] + a[1..] == a && [] + a[1..] == a[1..];
  }

  lemma Cut(b: seq<Json>, x: Json) returns (p: seq<Json>, q: seq<Json>)
    requires x in multiset(b)
    ensures b == p + [x] + q && multiset(p + q) == multiset(b) - multiset{x}
  {
    var k :| 0 <= k < |b| && b[k] == x;
    p, q := b[..k], b[k + 1..];
    assert b == p + [x] + q;
  }

  lemma CollectStep(check: Check, rows: seq<Json>, i: nat)
    requires i < |rows|
    ensures Collect(check, rows[..i + 1]) == Extend(Collect(check, rows[..i]), check(rows[i]))
    ensures check(rows[i]).None? ==> Collect(check, rows).None?
  {
    CollectSnoc(check, rows[..i], rows[i]);
    assert rows[..i] + [rows[i]] == rows[..i + 1];
    CollectExact(check, rows);
  }

  /** Row order never matters: neither for success nor for the answer. */
  lemma ArrangedPermutes(check: Check, a: seq<Json>, b: seq<Json>)
    requires multiset(a) == multiset(b)
    ensures Arranged(check, a) == Arranged(check, b)
  {
    CollectPermutes(check, a, b);
    if Collect(check, a).Some? {
      var x, y := Collect(check, a).value, Collect(check, b).value;
      SameStamps(x, y);
      CountDistinct(x);
      CountDistinct(y);
      if Distinct(x) {
        SortSorted(x);
        SortSorted(y);
        ArrangementUnique(Sort(x), Sort(y));
      }
    }
  }

  // ----------------------------------------------------------------- free-stockdb rows

  /** `start` and `end` are wall-clock seconds in Shanghai. */
  datatype Request = Request(code: string, daily: bool, start: Option<int>, end: Option<int>)

  /** `str(value)` where that can consist of digits. */
  function DigitText(v: Json): Option<string> {
    match v
    case Str(s) => Some(s)
    case Int(n) => if n >= 0 then Some(NatText(n)) else None
    case _ => None
  }

  predicate InRange(req: Request, t: int) {
    var unit := if req.daily then 86_400 else 1;
    && (req.start.Some? ==> req.start.value / unit <= t / unit)
    && (req.end.Some? ==> t / unit <= req.end.value / unit)
  }

  const MINUTE_FIELDS := ["code", "date", "open", "high", "low", "close", "volume", "amount"]

  function Required(daily: bool): seq<string> { if daily then MINUTE_FIELDS + ["turnover"] else MINUTE_FIELDS }

  predicate Has(pairs: seq<Member>, keys: seq<string>) {
    forall i | 0 <= i < |keys| :: Lookup(pairs, keys[i]).Some?
  }

  function Field(rd: Reading, pairs: seq<Member>, key: string): Option<real> {
    match Lookup(pairs, key) case Some(v) => JsonNumber(rd, v) case None => None
  }

  function FieldOr(rd: Reading, pairs: seq<Member>, key: string, missing: real): Option<real> {
    if Lookup(pairs, key).None? then Some(missing) else Field(rd, pairs, key)
  }

  /** The timestamp of a row when its code, date and range are right. */
  function RowStamp(rd: Reading, req: Request, pairs: seq<Member>): (t: Option<int>)
    ensures t.Some? ==> InRange(req, t.value)
  {
    match (Lookup(pairs, "code"), Lookup(pairs, "date"))
    case (Some(code), Some(date)) =>
      if DigitText(code) != Some(req.code) || DigitText(date).None? then None
      else
        var t := Stamp(rd.digit, DigitText(date).value, req.daily);
        if t.None? || !InRange(req, t.value) then None else Some(t.value as int)
    case _ => None
  }

  /** One row of `_parse_bars`. */
  function FreeRow(rd: Reading, req: Request, row: Json): (r: Option<Bar>)
    ensures r.Some? ==> Consistent(r.value) && InRange(req, r.value.timestamp)
  {
    if !row.Obj? || !Has(row.pairs, Required(req.daily)) then None
    else
      var t, ps := RowStamp(rd, req, row.pairs), row.pairs;
      var open, high := Field(rd, ps, "open"), Field(rd, ps, "high");
      var low, close := Field(rd, ps, "low"), Field(rd, ps, "close");
      var amount, turnover, volume := Field(rd, ps, "amount"), FieldOr(rd, ps, "turnover", 0.0), Lookup(ps, "volume");
      if t.None? || open.None? || high.None? || low.None? || close.None? || amount.None? || turnover.None? then None
      else if !PricesOk(open.value, high.value, low.value, close.value) then None
      else if amount.value < 0.0 || turnover.value < 0.0 then None
      else if volume.None? || !volume.value.Int? || volume.value.n < 0 then None
      else Some(Bar(t.value, open.value, high.value, low.value, close.value, volume.value.n, amount.value,
                    turnover.value))
  }

  function FreeCheck(rd: Reading, req: Request): Check { row => FreeRow(rd, req, row) }

  /** `_extract_rows`. */
  function ExtractRows(payload: Json, daily: bool): Option<seq<Json>> {
    match payload
    case Null => Some([])
    case Arr(xs) => if forall i | 0 <= i < |xs| :: xs[i].Obj? then Some(xs) else None
    case Obj(ps) =>
      if ps == [] then Some([])
      else if Has(ps, Required(daily)) then Some([payload])
      else if forall i | 0 <= i < |ps| :: ps[i].value.Obj? then Some(seq(|ps|, i requires 0 <= i < |ps| => ps[i].value))
      else None
    case _ => None
  }

  function FreeResult(rd: Reading, req: Request, payload: Json): Option<seq<Bar>> {
    match ExtractRows(payload, req.daily)
    case None => None
    case Some(rows) => Arranged(FreeCheck(rd, req), rows)
  }

  /** From the bytes on; nothing stands for a raised error. */
  function FreeBytes(rd: Reading, req: Request, raw: seq<Byte>): Option<seq<Bar>> {
    match ReadPayload(raw, true)
    case None => None
    case Some(payload) => FreeResult(rd, req, payload)
  }

  /** free-stockdb's `_parse_bars`. */
  method ParseFree(rd: Reading, req: Request, raw: seq<Byte>) returns (r: Option<seq<Bar>>)
    ensures r == FreeBytes(rd, req, raw)
  {
    var payload := ReadPayload(raw, true);
    if payload.None? {
      return None;
    }
    var extracted := ExtractRows(payload.value, req.daily);
    if extracted.None? {
      return None;
    }
    var check, rows := FreeCheck(rd, req), extracted.value;
    var bars: seq<Bar> := [];
    for i := 0 to |rows|
      invariant Collect(check, rows[..i]) == Some(bars)
    {
      var made := check(rows[i]);
      CollectStep(check, rows, i);
      if made.None? {
        return None;
      }
      bars := bars + [made.value];
    }
    assert rows[..|rows|] == rows;
    if |Stamps(bars)| != |bars| {
      return None;
    }
    r := Some(Sort(bars));
  }

  /** On success: all rows, strictly rising, consistent and inside the requested range. */
  lemma FreeBarsExact(rd: Reading, req: Request, payload: Json)
    requires FreeResult(rd, req, payload).Some?
    ensures var bs := FreeResult(rd, req, payload).value;
            && Ascending(bs)
            && |bs| == |ExtractRows(payload, req.daily).value|
            && (forall k | 0 <= k < |bs| :: Consistent(bs[k]) && InRange(req, bs[k].timestamp))
  {
    hide FreeRow, ExtractRows, Sort;
    var rows := ExtractRows(payload, req.daily).value;
    var check, bs := FreeCheck(rd, req), FreeResult(rd, req, payload).value;
    ArrangedExact(check, rows, bs);
    var bars := Collect(check, rows).value;
    CollectExact(check, rows);
    SameStamps(bs, bars);
    forall k | 0 <= k < |bs| ensures Consistent(bs[k]) && InRange(req, bs[k].timestamp) {
      assert bs[k] in multiset(bars);
      var i :| 0 <= i < |bars| && bars[i] == bs[k];
      assert check(rows[i]) == Some(bars[i]) && FreeRow(rd, req, rows[i]) == Some(bars[i]);
    }
  }

  /** Two documents with the same rows, listed in any order, give the same answer. */
  lemma FreeRowOrder(rd: Reading, req: Request, xs: seq<Json>, ys: seq<Json>)
    requires multiset(xs) == multiset(ys)
    ensures FreeResult(rd, req, Arr(xs)) == FreeResult(rd, req, Arr(ys))
  {
    hide Arranged, FreeRow, FreeCheck;
    if ExtractRows(Arr(xs), req.daily).Some? {
      AllObjects(xs, ys);
    } else if ExtractRows(Arr(ys), req.daily).Some? {
      AllObjects(ys, xs);
    }
    ArrangedPermutes(FreeCheck(rd, req), xs, ys);
  }

  /** A keyed document means the list of its values, and a single row the list of itself. */
  lemma FreeShapes(rd: Reading, req: Request, ps: seq<Member>)
    requires ps != []
    requires Has(ps, Required(req.daily)) || forall i | 0 <= i < |ps| :: ps[i].value.Obj?
    ensures var rows := if Has(ps, Required(req.daily)) then [Obj(ps)]
                        else seq(|ps|, i requires 0 <= i < |ps| => ps[i].value);
            FreeResult(rd, req, Obj(ps)) == FreeResult(rd, req, Arr(rows))
  {
    var rows := if Has(ps, Required(req.daily)) then [Obj(ps)]
                else seq(|ps|, i requires 0 <= i < |ps| => ps[i].value);
    assert ExtractRows(Arr(rows), req.daily) == Some(rows);
    assert ExtractRows(Obj(ps), req.daily) == Some(rows);
  }

  lemma AllObjects(xs: seq<Json>, ys: seq<Json>)
    requires multiset(xs) == multiset(ys) && forall i | 0 <= i < |xs| :: xs[i].Obj?
    ensures forall i | 0 <= i < |ys| :: ys[i].Obj?
  {
    forall i | 0 <= i < |ys| ensures ys[i].Obj? {
      assert ys[i] in multiset(xs);
    }
  }

  // --------------------------------------------------------------- HiThink Finance rows

  const HITHINK_FIELDS :=
    ["date_ms", "open_price", "high_price", "low_price", "close_price", "volume", "turnover"]

  /** One row; `midnight` is the Shanghai date of an epoch millisecond, where there is one. */
  function HithinkRow(rd: Reading, midnight: int -> Option<int>, limit: int, row: Json): (r: Option<Bar>)
    ensures r.Some? ==> Consistent(r.value)
  {
    if !row.Obj? || !Has(row.pairs, HITHINK_FIELDS) then None
    else
      var ps := row.pairs;
      var date := Lookup(ps, "date_ms");
      if date.None? || !date.value.Int? || date.value.n > limit || date.value.n <= 0 then None
      else
        var t := midnight(date.value.n);
        var open, high := Field(rd, ps, "open_price"), Field(rd, ps, "high_price");
        var low, close := Field(rd, ps, "low_price"), Field(rd, ps, "close_price");
        var amount, volume := Field(rd, ps, "turnover"), Field(rd, ps, "volume");
        if t.None? || open.None? || high.None? || low.None? || close.None? || amount.None? || volume.None? then None
        else if !PricesOk(open.value, high.value, low.value, close.value) then None
        else if amount.value < 0.0 || volume.value < 0.0 then None
        else Some(Bar(t.value, open.value, high.value, low.value, close.value, RoundHalfEven(volume.value),
                      amount.value, 0.0))
  }

  function HithinkCheck(rd: Reading, midnight: int -> Option<int>, limit: int): Check {
    row => HithinkRow(rd, midnight, limit, row)
  }

  /** The time limit and the rows of a success envelope. */
  function Envelope(payload: Json): Option<(int, seq<Json>)> {
    if !payload.Obj? then None
    else
      var code, data := Lookup(payload.pairs, "code"), Lookup(payload.pairs, "data");
      if code != Some(Int(0)) || data.None? || !data.value.Obj? then None
      else
        var limit, rows := Lookup(data.value.pairs, "timestamp"), Lookup(data.value.pairs, "item");
        if limit.None? || !limit.value.Int? || limit.value.n <= 0 then None
        else if rows.None? || !rows.value.Arr? || rows.value.items == [] then None
        else Some((limit.value.n, rows.value.items))
  }

  function HithinkResult(rd: Reading, midnight: int -> Option<int>, payload: Json): Option<seq<Bar>> {
    match Envelope(payload)
    case None => None
    case Some((limit, rows)) => Arranged(HithinkCheck(rd, midnight, limit), rows)
  }

  function HithinkBytes(rd: Reading, midnight: int -> Option<int>, raw: seq<Byte>): Option<seq<Bar>> {
    match ReadPayload(raw, true)
    case None => None
    case Some(payload) => HithinkResult(rd, midnight, payload)
  }

  ghost predicate ReadInv(check: Check, rows: seq<Json>, i: nat, bars: seq<Bar>, seen: set<int>)
    requires i <= |rows|
  {
    && Collect(check, rows[..i]) == Some(bars)
    && seen == Stamps(bars) && |seen| == |bars|
  }

  lemma ReadStep(check: Check, rows: seq<Json>, i: nat, bars: seq<Bar>, seen: set<int>)
    requires i < |rows| && ReadInv(check, rows, i, bars, seen) && check(rows[i]).Some?
    ensures var b := check(rows[i]).value;
            if b.timestamp in seen then Arranged(check, rows).None?
            else ReadInv(check, rows, i + 1, bars + [b], seen + {b.timestamp})
  {
    CollectStep(check, rows, i);
    var b := check(rows[i]).value;
    if b.timestamp in seen {
      DuplicateStays(check, rows, i, bars, b);
    } else {
      StampsSnoc(bars + [b]);
      assert (bars + [b])[..|bars|] == bars;
    }
  }

  /** A duplicate among the first rows is a duplicate of all rows. */
  lemma DuplicateStays(check: Check, rows: seq<Json>, i: nat, bars: seq<Bar>, b: Bar)
    requires i < |rows| && Collect(check, rows[..i]) == Some(bars) && check(rows[i]) == Some(b)
    requires b.timestamp in Stamps(bars)
    ensures Arranged(check, rows) == None
  {
    var all := Collect(check, rows);
    if all.Some? {
      var x :| x in bars && x.timestamp == b.timestamp;
      CollectExact(check, rows);
      CollectExact(check, rows[..i]);
      var j :| 0 <= j < i && bars[j] == x;
      assert rows[..i][j] == rows[j];
      assert all.value[j] == x && all.value[i] == b;
      CountDistinct(all.value);
    }
  }

  /** `parse_bars`, whose `seen` set catches a duplicate date while the rows are read. */
  method ParseHithink(rd: Reading, midnight: int -> Option<int>, raw: seq<Byte>) returns (r: Option<seq<Bar>>)
    ensures r == HithinkBytes(rd, midnight, raw)
  {
    var payload := ReadPayload(raw, true);
    if payload.None? {
      return None;
    }
    var envelope := Envelope(payload.value);
    if envelope.None? {
      return None;
    }
    r := ReadHithink(rd, midnight, envelope.value.0, envelope.value.1);
  }

  method ReadHithink(rd: Reading, midnight: int -> Option<int>, limit: int, rows: seq<Json>)
    returns (r: Option<seq<Bar>>)
    ensures r == Arranged(HithinkCheck(rd, midnight, limit), rows)
  {
    var check := HithinkCheck(rd, midnight, limit);
    var bars: seq<Bar>, seen: set<int> := [], {};
    for i := 0 to |rows|
      invariant ReadInv(check, rows, i, bars, seen)
    {
      var made := check(rows[i]);
      CollectStep(check, rows, i);
      if made.Some? {
        ReadStep(check, rows, i, bars, seen);
      }
      if made.None? || made.value.timestamp in seen {
        return None;
      }
      bars := bars + [made.value];
      seen := seen + {made.value.timestamp};
    }
    assert rows[..|rows|] == rows;
    r := Some(Sort(bars));
  }

  lemma HithinkRowOrder(rd: Reading, midnight: int -> Option<int>, p: Json, q: Json)
    requires Envelope(p).Some? && Envelope(q).Some?
    requires Envelope(p).value.0 == Envelope(q).value.0
    requires multiset(Envelope(p).value.1) == multiset(Envelope(q).value.1)
    ensures HithinkResult(rd, midnight, p) == HithinkResult(rd, midnight, q)
  {
    ArrangedPermutes(HithinkCheck(rd, midnight, Envelope(p).value.0), Envelope(p).value.1, Envelope(q).value.1);
  }
}
