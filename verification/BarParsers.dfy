/** The chronological K-line parsers with their strict and tolerant modes
  (stock_tracker/collector/tencent.py, stock_tracker/collector/eastmoney.py). */
module BarParsers {
  import opened Prelude
  import opened CanonicalJson
  import opened JsonReaders
  import opened Utf8
  import opened Bars

  datatype Provider = Tencent | Eastmoney

  /** `TooLarge` is the OverflowError that no `except` of the parsers catches. */
  datatype Error = BadDocument | BadRow(index: nat) | TooLarge(index: nat)

  // ------------------------------------------------------------------------- one row

  /** `round(raw_volume * scale)`. */
  function Shares(lots: real, scale: nat): (r: int)
    ensures -0.5 <= lots * scale as real - r as real <= 0.5
  {
    RoundHalfEven(lots * scale as real)
  }

  /** A bar from the cells of a row, unless one is no number, out of range or inconsistent. */
  function MakeBar(day: Option<int>, open: Option<real>, high: Option<real>, low: Option<real>, close: Option<real>,
                   volume: Option<real>, amount: Option<real>, turnover: Option<real>, scale: nat): (r: Option<Bar>)
    ensures r.Some? ==>
              && Consistent(r.value) && volume.Some?
              && -0.5 <= volume.value * scale as real - r.value.volume as real <= 0.5
    ensures r.None? <==>
            || day.None? || open.None? || high.None? || low.None? || close.None?
            || volume.None? || amount.None? || turnover.None?
            || volume.value < 0.0 || amount.value < 0.0 || turnover.value < 0.0
            || !(0.0 < low.value <= open.value <= high.value && low.value <= close.value <= high.value)
  {
    if day.None? || open.None? || high.None? || low.None? || close.None?
       || volume.None? || amount.None? || turnover.None? then None
    else if !PricesOk(open.value, high.value, low.value, close.value) then None
    else if volume.value < 0.0 || amount.value < 0.0 || turnover.value < 0.0 then None
    else
      assert volume.value * scale as real >= 0.0;
      Some(Bar(day.value, open.value, high.value, low.value, close.value,
               Shares(volume.value, scale), amount.value, turnover.value))
  }

  /** Tencent's `number`: text is read too. */
  function CellNumber(rd: Reading, v: Json): Option<real> {
    if v.Str? then rd.number(v.s) else JsonNumber(rd, v)
  }

  /** A list of day, open, close, high, low, volume and perhaps an amount. */
  function TencentRow(rd: Reading, scale: nat, row: Json): Option<Bar> {
    if !row.Arr? || |row.items| < 6 then None
    else
      var xs := row.items;
      var amount := if |xs| > 6 && xs[6] != Str("") && xs[6] != Null then CellNumber(rd, xs[6]) else Some(0.0);
      MakeBar(if xs[0].Str? then rd.day(xs[0].s) else None,
              CellNumber(rd, xs[1]), CellNumber(rd, xs[3]), CellNumber(rd, xs[4]), CellNumber(rd, xs[2]),
              CellNumber(rd, xs[5]), amount, Some(0.0), scale)
  }

  /** `line.split(",")`. */
  function Split(line: string): (fields: seq<string>)
    ensures |fields| >= 1 && Join(fields) == line
    ensures forall i | 0 <= i < |fields| :: ',' !in fields[i]
  {
    if line == "" then [""]
    else
      var rest := Split(line[1..]);
      if line[0] == ',' then [""] + rest else [[line[0]] + rest[0]] + rest[1..]
  }

  function Join(fields: seq<string>): string
    requires |fields| >= 1
  {
    if |fields| == 1 then fields[0] else fields[0] + "," + Join(fields[1..])
  }

  function OrZero(rd: Reading, field: string): Option<real> {
    if field == "" then Some(0.0) else rd.number(field)
  }

  /** A line of day, open, close, high, low, volume, amount, turnover and more. */
  function EastmoneyRow(rd: Reading, scale: nat, row: Json): Option<Bar> {
    if !row.Str? then None
    else
      var f := Split(row.s);
      if |f| < 8 then None else FieldsBar(rd, scale, f)
  }

  function FieldsBar(rd: Reading, scale: nat, f: seq<string>): Option<Bar>
    requires |f| >= 8
  {
    MakeBar(rd.day(f[0]), rd.number(f[1]), rd.number(f[3]), rd.number(f[4]), rd.number(f[2]),
            rd.number(f[5]), OrZero(rd, f[6]), OrZero(rd, f[7]), scale)
  }

  lemma {:induction false} SplitJoin(fields: seq<string>)
    requires |fields| >= 1 && forall i | 0 <= i < |fields| :: ',' !in fields[i]
    ensures Split(Join(fields)) == fields
    decreases |fields|, |fields[0]|
  {
    if fields[0] != "" {
      var shorter := [fields[0][1..]] + fields[1..];
      assert forall i | 0 <= i < |shorter| :: ',' !in shorter[i];
      SplitJoin(shorter);
      FirstLonger(fields, shorter);
    } else if |fields| > 1 {
      SplitJoin(fields[1..]);
      assert Join(fields)[1..] == Join(fields[1..]);
      assert [""] + fields[1..] == fields;
    } else {
      assert fields == [""];
    }
  }

  /** One more character in the first field. */
  lemma FirstLonger(fields: seq<string>, shorter: seq<string>)
    requires |fields| >= 1 && fields[0] != "" && fields[0][0] != ','
    requires shorter == [fields[0][1..]] + fields[1..] && Split(Join(shorter)) == shorter
    ensures Split(Join(fields)) == fields
  {
    hide Split, Join;
    JoinLonger(fields, shorter);
    SplitLonger(fields[0][0], Join(shorter));
    assert [fields[0][0]] + shorter[0] == fields[0];
    assert [fields[0]] + shorter[1..] == fields;
  }

  lemma JoinLonger(fields: seq<string>, shorter: seq<string>)
    requires |fields| >= 1 && fields[0] != "" && shorter == [fields[0][1..]] + fields[1..]
    ensures Join(fields) == [fields[0][0]] + Join(shorter)
  {
    assert shorter[1..] == fields[1..];
    assert [fields[0][0]] + fields[0][1..] == fields[0];
  }

  lemma SplitLonger(c: char, line: string)
    requires c != ','
    ensures Split([c] + line) == [[c] + Split(line)[0]] + Split(line)[1..]
  {
    assert ([c] + line)[1..] == line;
  }

  /** A row's bar, the float range aside. */
  function RawBar(p: Provider, rd: Reading, scale: nat, row: Json): (r: Option<Bar>)
    ensures r.Some? ==> Consistent(r.value)
  {
    match p case Tencent => TencentRow(rd, scale, row) case Eastmoney => EastmoneyRow(rd, scale, row)
  }

  // ------------------------------------------------------------------ beyond the float range

  /** Where a row raises OverflowError: while a cell is read, or when its volume is scaled, which
    comes after the tests on its timestamp. */
  datatype Overflow = Never | AtCell | AtVolume(timestamp: int)

  predicate Beyond(rd: Reading, v: Json) { v.Int? && !HasFloat(rd, v.n as real) }

  /** The cells Tencent's row reads after its day, in order. */
  function TencentCells(xs: seq<Json>): seq<Json>
    requires |xs| >= 6
  {
    xs[1..6] + if |xs| > 6 && xs[6] != Str("") && xs[6] != Null then [xs[6]] else []
  }

  /** What lets the reading of a row go on after its `i`th cell: the four prices are positive, the
    volume and the amount are not negative. */
  predicate Passes(rd: Reading, cells: seq<Json>, i: nat)
    requires i < |cells|
  {
    var x := CellNumber(rd, cells[i]);
    x.Some? && x.value >= 0.0 && (i < 4 ==> x.value > 0.0)
  }

  /** An integer cell beyond the float range is reached; Eastmoney's cells are texts. */
  predicate CellRaises(p: Provider, rd: Reading, row: Json) {
    && p.Tencent? && row.Arr? && |row.items| >= 6 && row.items[0].Str? && rd.day(row.items[0].s).Some?
    && var cells := TencentCells(row.items);
       exists i | 0 <= i < |cells| :: Beyond(rd, cells[i]) && forall j | 0 <= j < i :: Passes(rd, cells, j)
  }

  /** The volume cell of a row that makes a bar. */
  function RawVolume(p: Provider, rd: Reading, scale: nat, row: Json): (r: real)
    requires RawBar(p, rd, scale, row).Some?
    ensures -0.5 <= r * scale as real - RawBar(p, rd, scale, row).value.volume as real <= 0.5
  {
    match p
    case Tencent => CellNumber(rd, row.items[5]).value
    case Eastmoney => rd.number(Split(row.s)[5]).value
  }

  function RowOverflow(p: Provider, rd: Reading, scale: nat, row: Json): Overflow {
    if CellRaises(p, rd, row) then AtCell
    else
      match RawBar(p, rd, scale, row)
      case None => Never
      case Some(b) =>
        if HasFloat(rd, RawVolume(p, rd, scale, row) * scale as real) then Never else AtVolume(b.timestamp)
  }

  function RowBar(p: Provider, rd: Reading, scale: nat, row: Json): (r: Option<Bar>)
    ensures r.Some? ==> Consistent(r.value) && RowOverflow(p, rd, scale, row).Never?
  {
    if RowOverflow(p, rd, scale, row).Never? then RawBar(p, rd, scale, row) else None
  }

  function RowBars(p: Provider, rd: Reading, scale: nat, rows: seq<Json>): (made: seq<Option<Bar>>)
    ensures |made| == |rows|
    ensures forall i | 0 <= i < |rows| :: made[i] == RowBar(p, rd, scale, rows[i])
    ensures forall i | 0 <= i < |rows| :: made[i].Some? ==> Consistent(made[i].value)
  {
    seq(|rows|, i requires 0 <= i < |rows| => RowBar(p, rd, scale, rows[i]))
  }

  function Overflows(p: Provider, rd: Reading, scale: nat, rows: seq<Json>): (over: seq<Overflow>)
    ensures |over| == |rows|
    ensures forall i | 0 <= i < |rows| :: over[i] == RowOverflow(p, rd, scale, rows[i])
  {
    seq(|rows|, i requires 0 <= i < |rows| => RowOverflow(p, rd, scale, rows[i]))
  }

  // ------------------------------------------------------------- what the loop is for

  /** A timestamp is later than the bar of every row before the `i`th. */
  ghost predicate Later(made: seq<Option<Bar>>, i: nat, t: int)
    requires i <= |made|
  {
    forall j | 0 <= j < i && made[j].Some? :: made[j].value.timestamp < t
  }

  /** A row is kept when it makes a bar that is later than the bar of every earlier row. */
  ghost predicate Keeps(made: seq<Option<Bar>>, i: nat)
    requires i < |made|
  {
    made[i].Some? && Later(made, i, made[i].value.timestamp)
  }

  /** A row raises at a cell, or at its volume when the tests on its timestamp let it through. */
  ghost predicate Raises(made: seq<Option<Bar>>, over: seq<Overflow>, i: nat)
    requires i < |made| == |over|
  {
    over[i].AtCell? || (over[i].AtVolume? && Later(made, i, over[i].timestamp))
  }

  ghost function Records(made: seq<Option<Bar>>, n: nat): seq<Bar>
    requires n <= |made|
  {
    if n == 0 then []
    else Records(made, n - 1) +
         if Keeps(made, n - 1) then [made[n - 1].value] else []
  }

  /** The kept row behind each record. */
  ghost function Origins(made: seq<Option<Bar>>, n: nat): seq<nat>
    requires n <= |made|
  {
    if n == 0 then []
    else Origins(made, n - 1) + if Keeps(made, n - 1) then [n - 1] else []
  }

  ghost function FirstRejected(made: seq<Option<Bar>>, i: nat): (r: nat)
    requires i <= |made|
    ensures i <= r <= |made|
    ensures forall j | i <= j < r :: Keeps(made, j)
    ensures r < |made| ==> !Keeps(made, r)
    decreases |made| - i
  {
    if i == |made| || !Keeps(made, i) then i else FirstRejected(made, i + 1)
  }

  ghost function FirstRaising(made: seq<Option<Bar>>, over: seq<Overflow>, i: nat): (r: nat)
    requires i <= |made| == |over|
    ensures i <= r <= |made|
    ensures forall j | i <= j < r :: !Raises(made, over, j)
    ensures r < |made| ==> Raises(made, over, r)
    decreases |made| - i
  {
    if i == |made| || Raises(made, over, i) then i else FirstRaising(made, over, i + 1)
  }

  /** What the loop makes of its rows: it raises at the first row that does, strict mode also stops
    at the first row that is not kept. */
  ghost function RowsResult(made: seq<Option<Bar>>, over: seq<Overflow>, strict: bool): Result<seq<Bar>, Error>
    requires |made| == |over|
  {
    var bad, raising := FirstRejected(made, 0), FirstRaising(made, over, 0);
    if raising < |made| && (strict ==> raising <= bad) then Err(TooLarge(raising))
    else if strict && bad < |made| then Err(BadRow(bad))
    else Ok(Records(made, |made|))
  }

  /** The records are the kept rows in their order: chronological, each once. */
  lemma {:induction false} RecordsExact(made: seq<Option<Bar>>, n: nat)
    requires n <= |made|
    ensures var at, bs := Origins(made, n), Records(made, n);
            && |at| == |bs|
            && (forall k | 0 <= k < |at| :: at[k] < n && Keeps(made, at[k])
                                            && Some(bs[k]) == made[at[k]])
            && (forall k, m | 0 <= k < m < |at| :: at[k] < at[m])
            && (forall i | 0 <= i < n :: Keeps(made, i) ==> i in at)
            && Ascending(bs)
  {
    if n > 0 {
      RecordsExact(made, n - 1);
    }
  }

  /** A timestamp that is not later than all before comes after a kept row that is not earlier. */
  lemma {:induction false} DroppedRow(made: seq<Option<Bar>>, i: nat, t: int) returns (k: nat)
    requires i <= |made| && !Later(made, i, t)
    ensures k < i && Keeps(made, k) && made[k].value.timestamp >= t
    decreases i
  {
    k :| 0 <= k < i && made[k].Some? && made[k].value.timestamp >= t;
    if !Keeps(made, k) {
      k := DroppedRow(made, k, made[k].value.timestamp);
    }
  }

  /** When every row is kept the records are all the rows. */
  lemma {:induction false} AllKept(made: seq<Option<Bar>>, n: nat)
    requires n <= |made| && forall i | 0 <= i < n :: Keeps(made, i)
    ensures |Records(made, n)| == n
    ensures forall i | 0 <= i < n :: Some(Records(made, n)[i]) == made[i]
  {
    if n > 0 {
      AllKept(made, n - 1);
    }
  }

  /** A row that raises makes no bar. */
  ghost predicate NeverBoth(made: seq<Option<Bar>>, over: seq<Overflow>)
    requires |made| == |over|
  {
    forall i | 0 <= i < |made| :: made[i].Some? ==> over[i].Never?
  }

  /** Strict mode succeeds exactly on rows that all make bars in strictly rising order. */
  lemma StrictExact(made: seq<Option<Bar>>, over: seq<Overflow>)
    requires |made| == |over| && NeverBoth(made, over)
    ensures RowsResult(made, over, true).Ok? <==>
            && (forall i | 0 <= i < |made| :: made[i].Some?)
            && (forall i, j | 0 <= i < j < |made| ::
                  made[i].value.timestamp < made[j].value.timestamp)
  {
    var bad := FirstRejected(made, 0);
    if bad == |made| {
      forall j | 0 <= j < |made| ensures Keeps(made, j) {}
      forall i, j | 0 <= i < j < |made|
        ensures made[i].Some? && made[j].Some? && made[i].value.timestamp < made[j].value.timestamp
      {
        assert Keeps(made, i) && Keeps(made, j);
      }
    }
  }

  /** A timestamp seen before is never later than the last kept one, so testing `seen` as well
    as `previous` rejects nothing more. */
  lemma SeenImpliedByPrevious(bars: seq<Bar>, t: int)
    requires Ascending(bars) && exists b :: b in bars && b.timestamp == t
    ensures bars != [] && t <= bars[|bars| - 1].timestamp
  {
    var b :| b in bars && b.timestamp == t;
    var i :| 0 <= i < |bars| && bars[i] == b;
  }

  // -------------------------------------------------------------------------- the loop

  ghost predicate LoopInv(made: seq<Option<Bar>>, i: nat,
                          bars: seq<Bar>, seen: set<int>, previous: Option<int>)
    requires i <= |made|
  {
    && bars == Records(made, i)
    && seen == (set b | b in bars :: b.timestamp)
    && previous == (if bars == [] then None else Some(bars[|bars| - 1].timestamp))
  }

  /** The tests on `seen` and `previous` decide whether a timestamp is later than all before. */
  lemma TestsDecide(made: seq<Option<Bar>>, i: nat, t: int,
                    bars: seq<Bar>, seen: set<int>, previous: Option<int>)
    requires i < |made| && LoopInv(made, i, bars, seen, previous)
    ensures Later(made, i, t) <==> !(t in seen || (previous.Some? && t <= previous.value))
  {
    var at := Origins(made, i);
    RecordsExact(made, i);
    if t in seen {
      SeenImpliedByPrevious(bars, t);
    }
    if Later(made, i, t) {
      if bars != [] {
        var j := at[|at| - 1];
        assert made[j].value.timestamp < t;
      }
    } else {
      var k := DroppedRow(made, i, t);
      var m :| 0 <= m < |at| && at[m] == k;
      assert bars[m].timestamp >= t;
      assert bars[m].timestamp <= bars[|bars| - 1].timestamp;
    }
  }

  lemma LoopStep(made: seq<Option<Bar>>, i: nat,
                 bars: seq<Bar>, seen: set<int>, previous: Option<int>)
    requires i < |made| && LoopInv(made, i, bars, seen, previous)
    ensures !Keeps(made, i) ==> LoopInv(made, i + 1, bars, seen, previous)
    ensures Keeps(made, i) ==>
              var b := made[i].value;
              LoopInv(made, i + 1, bars + [b], seen + {b.timestamp}, Some(b.timestamp))
  {
    if Keeps(made, i) {
      var b := made[i].value;
      assert (set x | x in bars + [b] :: x.timestamp) == seen + {b.timestamp};
    } else {
      assert bars + [] == bars;
    }
  }

  method ParseRows(p: Provider, rd: Reading, scale: nat, rows: seq<Json>, strict: bool)
    returns (r: Result<seq<Bar>, Error>)
    ensures r == RowsResult(RowBars(p, rd, scale, rows), Overflows(p, rd, scale, rows), strict)
  {
    hide RowBar, RowOverflow;
    var bars: seq<Bar>, seen: set<int>, previous: Option<int> := [], {}, None;
    ghost var all, over := RowBars(p, rd, scale, rows), Overflows(p, rd, scale, rows);
    ghost var bad, raising := FirstRejected(all, 0), FirstRaising(all, over, 0);
    for i := 0 to |rows|
      invariant LoopInv(all, i, bars, seen, previous)
      invariant (strict ==> i <= bad) && i <= raising
    {
      var overflow, made := RowOverflow(p, rd, scale, rows[i]), RowBar(p, rd, scale, rows[i]);
      LoopStep(all, i, bars, seen, previous);
      if overflow.AtCell? {
        assert Raises(all, over, i);
        return Err(TooLarge(i));
      }
      if overflow.AtVolume? {
        TestsDecide(all, i, overflow.timestamp, bars, seen, previous);
        if !(overflow.timestamp in seen || (previous.Some? && overflow.timestamp <= previous.value)) {
          assert Raises(all, over, i);
          return Err(TooLarge(i));
        }
      }
      if made.Some? {
        TestsDecide(all, i, made.value.timestamp, bars, seen, previous);
      }
      if made.None? || made.value.timestamp in seen
         || (previous.Some? && made.value.timestamp <= previous.value) {
        assert !Keeps(all, i) && !Raises(all, over, i);
        if strict {
          return Err(BadRow(i));
        }
      } else {
        assert Keeps(all, i);
        bars := bars + [made.value];
        seen := seen + {made.value.timestamp};
        previous := Some(made.value.timestamp);
      }
    }
    r := Ok(bars);
  }

  // --------------------------------------------------------------------- the document

  /** What comes before the rows: a failure, an empty answer, or the rows. */
  datatype Document = Broken | Empty | Rows(rows: seq<Json>)

  /** `value == 0`, which also holds of `False` and `0.0`. */
  predicate IsZero(rd: Reading, v: Json) {
    match v
    case Int(n) => n == 0
    case Bool(b) => !b
    case Float(text) => rd.number(text) == Some(0.0)
    case _ => false
  }

  /** Python's truth value. */
  predicate Truthy(rd: Reading, v: Json) {
    match v
    case Null => false
    case Str(s) => s != ""
    case Arr(xs) => xs != []
    case Obj(ps) => ps != []
    case _ => !IsZero(rd, v)
  }

  function Fallback(strict: bool): Document { if strict then Broken else Empty }

  /** One level of `value.get(key)`: missing, null and `{}` are an empty answer. */
  function Inside(pairs: seq<Member>, key: string): Option<Json> {
    match Lookup(pairs, key)
    case Some(v) => if v == Null || v == Obj([]) then None else Some(v)
    case None => None
  }

  function TencentDocument(rd: Reading, payload: Json, symbol: string, strict: bool): Document {
    if !payload.Obj? then Broken
    else
      var code := Lookup(payload.pairs, "code");
      if code.Some? && !IsZero(rd, code.value) then Fallback(strict)
      else
        match Inside(payload.pairs, "data")
        case None => Empty
        case Some(data) =>
          if !data.Obj? then Fallback(strict)
          else
            match Inside(data.pairs, symbol)
            case None => Empty
            case Some(node) =>
              if !node.Obj? then Fallback(strict)
              else
                match Lookup(node.pairs, "qfqday")
                case None => Fallback(strict)
                case Some(rows) => if rows.Arr? then Rows(rows.items) else Fallback(strict)
  }

  function EastmoneyDocument(rd: Reading, payload: Json): Document {
    if !payload.Obj? then Broken
    else
      var rc, data := Lookup(payload.pairs, "rc"), Lookup(payload.pairs, "data");
      if rc.Some? && !IsZero(rd, rc.value) then Empty
      else if data.None? || !data.value.Obj? then Empty
      else
        match Lookup(data.value.pairs, "klines")
        case None => Empty
        case Some(klines) =>
          if !Truthy(rd, klines) then Empty
          else if klines.Arr? then Rows(klines.items) else Broken
  }

  function DocumentOf(p: Provider, rd: Reading, payload: Json, symbol: string, strict: bool): Document {
    match p
    case Tencent => TencentDocument(rd, payload, symbol, strict)
    case Eastmoney => EastmoneyDocument(rd, payload)
  }

  ghost function ParseResult(p: Provider, rd: Reading, scale: nat, payload: Json, symbol: string, strict: bool)
    : Result<seq<Bar>, Error>
  {
    match DocumentOf(p, rd, payload, symbol, strict)
    case Broken => Err(BadDocument)
    case Empty => Ok([])
    case Rows(rows) => RowsResult(RowBars(p, rd, scale, rows), Overflows(p, rd, scale, rows), strict)
  }

  ghost function BytesResult(p: Provider, rd: Reading, scale: nat, raw: seq<Byte>, symbol: string, strict: bool)
    : Result<seq<Bar>, Error>
  {
    match ReadPayload(raw, strict)
    case None => Err(BadDocument)
    case Some(payload) => ParseResult(p, rd, scale, payload, symbol, strict)
  }

  /** `_parse_bars` of either provider. */
  method ParseBars(p: Provider, rd: Reading, scale: nat, raw: seq<Byte>, symbol: string, strict: bool)
    returns (r: Result<seq<Bar>, Error>)
    ensures r == BytesResult(p, rd, scale, raw, symbol, strict)
  {
    var payload := ReadPayload(raw, strict);
    if payload.None? {
      return Err(BadDocument);
    }
    match DocumentOf(p, rd, payload.value, symbol, strict)
    case Broken => r := Err(BadDocument);
    case Empty => r := Ok([]);
    case Rows(rows) => r := ParseRows(p, rd, scale, rows, strict);
  }

  /** Strict refines tolerant, from the bytes on: a list from the strict mode is the list from the
    tolerant mode. */
  lemma StrictRefinesTolerant(p: Provider, rd: Reading, scale: nat, raw: seq<Byte>, symbol: string)
    requires BytesResult(p, rd, scale, raw, symbol, true).Ok?
    ensures BytesResult(p, rd, scale, raw, symbol, false) == BytesResult(p, rd, scale, raw, symbol, true)
  {
    SamePayload(raw);
    hide ReadPayload;
    var payload := ReadPayload(raw, true).value;
    assert DocumentOf(p, rd, payload, symbol, true) == DocumentOf(p, rd, payload, symbol, false);
  }

  /** A status that lets a document through: none, zero, and what Python finds equal to zero. */
  ghost predicate StatusFine(rd: Reading, status: Option<Json>) {
    match status
    case None => true
    case Some(Int(n)) => n == 0
    case Some(Bool(b)) => b == false
    case Some(Float(text)) => rd.number(text) == Some(0.0)
    case Some(_) => false
  }

  ghost predicate Absent(v: Option<Json>) { v == None || v == Some(Null) || v == Some(Obj([])) }

  /** What a mode makes of an answer that is none: strict mode refuses it, tolerant mode takes it for
    an empty one. */
  ghost function NoAnswer(strict: bool): Result<seq<Bar>, Error> { if strict then Err(BadDocument) else Ok([]) }

  /** Tencent's document level by level: the status, the data, the symbol's node, the rows. */
  lemma TencentLevels(rd: Reading, scale: nat, ps: seq<Member>, symbol: string, strict: bool)
    ensures var r := ParseResult(Tencent, rd, scale, Obj(ps), symbol, strict);
            var status, data := Lookup(ps, "code"), Lookup(ps, "data");
            if !StatusFine(rd, status) then r == NoAnswer(strict)
            else if Absent(data) then r == Ok([])
            else if !data.value.Obj? then r == NoAnswer(strict)
            else
              var node := Lookup(data.value.pairs, symbol);
              if Absent(node) then r == Ok([])
              else if !node.value.Obj? then r == NoAnswer(strict)
              else
                var rows := Lookup(node.value.pairs, "qfqday");
                if rows.None? || !rows.value.Arr? then r == NoAnswer(strict)
                else r == RowsResult(RowBars(Tencent, rd, scale, rows.value.items),
                                     Overflows(Tencent, rd, scale, rows.value.items), strict)
  {
    hide Lookup, RowBars, Overflows, RowsResult;
  }

  /** Eastmoney's: a bad status and missing data are an empty answer in both modes, and rows that
    are no list are refused in both. */
  lemma EastmoneyLevels(rd: Reading, scale: nat, ps: seq<Member>, symbol: string, strict: bool)
    ensures var r := ParseResult(Eastmoney, rd, scale, Obj(ps), symbol, strict);
            var status, data := Lookup(ps, "rc"), Lookup(ps, "data");
            if !StatusFine(rd, status) || data.None? || !data.value.Obj? then r == Ok([])
            else
              match Lookup(data.value.pairs, "klines")
              case None => r == Ok([])
              case Some(Arr(rows)) => r == RowsResult(RowBars(Eastmoney, rd, scale, rows),
                                                      Overflows(Eastmoney, rd, scale, rows), strict)
              case Some(Obj(ms)) => r == if ms == [] then Ok([]) else Err(BadDocument)
              case Some(Str(s)) => r == if s == "" then Ok([]) else Err(BadDocument)
              case Some(v) => r == if v == Null || StatusFine(rd, Some(v)) then Ok([]) else Err(BadDocument)
  {
    hide Lookup, RowBars, Overflows, RowBar, RowOverflow;
  }

  lemma OtherDocuments(p: Provider, rd: Reading, scale: nat, payload: Json, symbol: string, strict: bool)
    requires !payload.Obj?
    ensures ParseResult(p, rd, scale, payload, symbol, strict) == Err(BadDocument)
  {
  }

  /** A non-zero status code loses the answer, whatever else is in the document. */
  lemma RefusedAnswer(p: Provider, rd: Reading, scale: nat, ps: seq<Member>, symbol: string, strict: bool, n: int)
    requires n != 0 && Lookup(ps, if p.Tencent? then "code" else "rc") == Some(Int(n))
    ensures ParseResult(p, rd, scale, Obj(ps), symbol, strict)
            == if p.Tencent? && strict then Err(BadDocument) else Ok([])
  {
    match p
    case Tencent => TencentLevels(rd, scale, ps, symbol, strict);
    case Eastmoney => EastmoneyLevels(rd, scale, ps, symbol, strict);
  }

  /** The rows of a document with a fine status. */
  ghost predicate RowsAt(p: Provider, rd: Reading, payload: Json, symbol: string, rows: seq<Json>) {
    && payload.Obj?
    && StatusFine(rd, Lookup(payload.pairs, if p.Tencent? then "code" else "rc"))
    && var data := Lookup(payload.pairs, "data");
       && data.Some? && data.value.Obj?
       && match p
          case Tencent =>
            var node := Lookup(data.value.pairs, symbol);
            node.Some? && node.value.Obj? && Lookup(node.value.pairs, "qfqday") == Some(Arr(rows))
          case Eastmoney => Lookup(data.value.pairs, "klines") == Some(Arr(rows))
  }

  /** No object, or for Eastmoney rows that are there but no list. */
  ghost predicate Misshapen(p: Provider, rd: Reading, payload: Json) {
    || !payload.Obj?
    || (&& p.Eastmoney? && StatusFine(rd, Lookup(payload.pairs, "rc"))
        && var data := Lookup(payload.pairs, "data");
           && data.Some? && data.value.Obj?
           && var rows := Lookup(data.value.pairs, "klines");
              !Absent(rows) && !rows.value.Arr? && rows.value != Str("") && !StatusFine(rd, rows))
  }

  ghost predicate AnyRaises(p: Provider, rd: Reading, scale: nat, rows: seq<Json>) {
    exists i | 0 <= i < |rows| :: Raises(RowBars(p, rd, scale, rows), Overflows(p, rd, scale, rows), i)
  }

  lemma TolerantRows(p: Provider, rd: Reading, scale: nat, rows: seq<Json>)
    ensures var r := RowsResult(RowBars(p, rd, scale, rows), Overflows(p, rd, scale, rows), false);
            && (r.Err? <==> AnyRaises(p, rd, scale, rows))
            && (r.Ok? ==> Ascending(r.value) && forall k | 0 <= k < |r.value| :: Consistent(r.value[k]))
  {
    hide RowBar, RowOverflow;
    var made := RowBars(p, rd, scale, rows);
    RecordsExact(made, |made|);
    forall k | 0 <= k < |Records(made, |made|)| ensures Consistent(Records(made, |made|)[k]) {
      var i := Origins(made, |made|)[k];
      assert made[i] == Some(Records(made, |made|)[k]);
    }
  }

  /** Tolerant mode fails exactly on a document of the wrong shape and on a row that raises, and
    otherwise answers with a chronological list of consistent bars: that of its rows, or none. */
  lemma TolerantExact(p: Provider, rd: Reading, scale: nat, payload: Json, symbol: string)
    ensures var r := ParseResult(p, rd, scale, payload, symbol, false);
            && (r.Err? <==>
                  || Misshapen(p, rd, payload)
                  || exists rows :: RowsAt(p, rd, payload, symbol, rows) && AnyRaises(p, rd, scale, rows))
            && (r.Ok? ==> Ascending(r.value) && forall k | 0 <= k < |r.value| :: Consistent(r.value[k]))
            && (r.Ok? && r.value != [] ==> exists rows :: RowsAt(p, rd, payload, symbol, rows))
  {
    hide Lookup, RowBars, Overflows, RowsResult, AnyRaises, ParseResult, RowsAt;
    if rows :| RowsAt(p, rd, payload, symbol, rows) {
      RowsReached(p, rd, scale, payload, symbol, rows);
      TolerantRows(p, rd, scale, rows);
      forall other | RowsAt(p, rd, payload, symbol, other) ensures other == rows {
        OneRows(p, rd, payload, symbol, rows, other);
      }
      RowsShapely(p, rd, payload, symbol, rows);
    } else {
      NoRowsReached(p, rd, scale, payload, symbol);
    }
  }

  lemma OneRows(p: Provider, rd: Reading, payload: Json, symbol: string, a: seq<Json>, b: seq<Json>)
    requires RowsAt(p, rd, payload, symbol, a) && RowsAt(p, rd, payload, symbol, b)
    ensures a == b
  {
    hide Lookup;
  }

  lemma RowsShapely(p: Provider, rd: Reading, payload: Json, symbol: string, rows: seq<Json>)
    requires RowsAt(p, rd, payload, symbol, rows)
    ensures !Misshapen(p, rd, payload)
  {
    hide Lookup;
  }

  /** Whatever surrounds the rows, they decide. */
  lemma RowsReached(p: Provider, rd: Reading, scale: nat, payload: Json, symbol: string, rows: seq<Json>)
    requires RowsAt(p, rd, payload, symbol, rows)
    ensures ParseResult(p, rd, scale, payload, symbol, false)
            == RowsResult(RowBars(p, rd, scale, rows), Overflows(p, rd, scale, rows), false)
    ensures ParseResult(p, rd, scale, payload, symbol, true)
            == RowsResult(RowBars(p, rd, scale, rows), Overflows(p, rd, scale, rows), true)
  {
    hide Lookup, RowBars, Overflows, RowsResult, ParseResult;
    match p
    case Tencent =>
      TencentLevels(rd, scale, payload.pairs, symbol, false);
      TencentLevels(rd, scale, payload.pairs, symbol, true);
      NotAbsent(payload, symbol);
    case Eastmoney =>
      EastmoneyLevels(rd, scale, payload.pairs, symbol, false);
      EastmoneyLevels(rd, scale, payload.pairs, symbol, true);
  }

  lemma NotAbsent(payload: Json, symbol: string)
    requires payload.Obj? && Lookup(payload.pairs, "data").Some? && Lookup(payload.pairs, "data").value.Obj?
    requires var node := Lookup(Lookup(payload.pairs, "data").value.pairs, symbol);
             node.Some? && node.value.Obj? && Lookup(node.value.pairs, "qfqday").Some?
    ensures !Absent(Lookup(payload.pairs, "data"))
    ensures !Absent(Lookup(Lookup(payload.pairs, "data").value.pairs, symbol))
  {
  }

  lemma NoRowsReached(p: Provider, rd: Reading, scale: nat, payload: Json, symbol: string)
    requires forall rows :: !RowsAt(p, rd, payload, symbol, rows)
    ensures var r := ParseResult(p, rd, scale, payload, symbol, false);
            r == if Misshapen(p, rd, payload) then Err(BadDocument) else Ok([])
  {
    hide Lookup, RowBars, Overflows, RowsResult, ParseResult;
    if !payload.Obj? {
      OtherDocuments(p, rd, scale, payload, symbol, false);
    } else {
      match p
      case Tencent =>
        TencentLevels(rd, scale, payload.pairs, symbol, false);
        var data := Lookup(payload.pairs, "data");
        if data.Some? && data.value.Obj? {
          var node := Lookup(data.value.pairs, symbol);
          if node.Some? && node.value.Obj? {
            var found := Lookup(node.value.pairs, "qfqday");
            if found.Some? && found.value.Arr? { assert !RowsAt(p, rd, payload, symbol, found.value.items); }
          }
        }
      case Eastmoney =>
        EastmoneyLevels(rd, scale, payload.pairs, symbol, false);
        var data := Lookup(payload.pairs, "data");
        if data.Some? && data.value.Obj? {
          var found := Lookup(data.value.pairs, "klines");
          if found.Some? && found.value.Arr? { assert !RowsAt(p, rd, payload, symbol, found.value.items); }
        }
    }
  }

  /** One price beyond the float range in a row with a day is enough: the parser raises there,
    whatever the other rows are and in both modes, unless a row before it already did or, in
    strict mode, was not kept. */
  lemma HugePriceRaises(rd: Reading, scale: nat, rows: seq<Json>, strict: bool, i: nat)
    requires i < |rows| && rows[i].Arr? && |rows[i].items| >= 6 && rows[i].items[0].Str?
    requires rd.day(rows[i].items[0].s).Some? && Beyond(rd, rows[i].items[1])
    ensures var made, over := RowBars(Tencent, rd, scale, rows), Overflows(Tencent, rd, scale, rows);
            var r := RowsResult(made, over, strict);
            && r.Err? && r.error.index <= i
            && (r == Err(TooLarge(i)) <==>
                  forall j | 0 <= j < i :: !Raises(made, over, j) && (strict ==> Keeps(made, j)))
  {
    hide RowBar, RowOverflow;
    var made, over := RowBars(Tencent, rd, scale, rows), Overflows(Tencent, rd, scale, rows);
    PriceOverflows(rd, scale, rows[i]);
    assert Raises(made, over, i) && !Keeps(made, i);
  }

  lemma PriceOverflows(rd: Reading, scale: nat, row: Json)
    requires row.Arr? && |row.items| >= 6 && row.items[0].Str?
    requires rd.day(row.items[0].s).Some? && Beyond(rd, row.items[1])
    ensures RowOverflow(Tencent, rd, scale, row) == AtCell && RowBar(Tencent, rd, scale, row) == None
  {
    assert TencentCells(row.items)[0] == row.items[1];
  }
}
