/** Documents printed from bars, and that each parser reads them back: the inverse of the row
  formats (stock_tracker/collector/tencent.py, stock_tracker/collector/eastmoney.py,
  stock_tracker/collector/free_stockdb.py, stock_tracker/collector/hithink_finance.py). */
module BarPrinting {
  import opened Prelude
  import opened CanonicalJson
  import opened JsonReaders
  import opened Utf8
  import opened Bars
  import opened BarParsers
  import S = SortedBarParsers
  import D = DateDigits
  import opened DatePrinting

  /** The texts of numbers and days. */
  datatype Printing = Printing(number: real -> string, day: int -> string)

  ghost predicate NumberReads(rd: Reading, pr: Printing, x: real) {
    rd.number(pr.number(x)) == Some(x) && pr.number(x) != "" && ',' !in pr.number(x)
  }

  /** The number texts of a bar, its volume in lots, read back. */
  ghost predicate NumbersRead(rd: Reading, pr: Printing, scale: nat, b: Bar)
    requires scale > 0
  {
    PricesRead(rd, pr, b) && NumberReads(rd, pr, Lots(b.volume, scale))
  }

  ghost predicate PricesRead(rd: Reading, pr: Printing, b: Bar) {
    && NumberReads(rd, pr, b.open) && NumberReads(rd, pr, b.close)
    && NumberReads(rd, pr, b.high) && NumberReads(rd, pr, b.low)
    && NumberReads(rd, pr, b.amount) && NumberReads(rd, pr, b.turnover)
  }

  ghost predicate DayReads(rd: Reading, pr: Printing, t: int) {
    rd.day(pr.day(t)) == Some(t) && ',' !in pr.day(t)
  }

  function Lots(volume: int, scale: nat): real
    requires scale > 0
  {
    volume as real / scale as real
  }

  lemma SharesOfLots(volume: int, scale: nat)
    requires scale > 0 && volume >= 0
    ensures Shares(Lots(volume, scale), scale) == volume && Lots(volume, scale) >= 0.0
  {
    assert Lots(volume, scale) * scale as real == volume as real;
  }

  // ---------------------------------------------------------- the chronological formats

  function PrintTencent(pr: Printing, scale: nat, b: Bar): Json
    requires scale > 0
  {
    Arr([Str(pr.day(b.timestamp)), Str(pr.number(b.open)), Str(pr.number(b.close)), Str(pr.number(b.high)),
         Str(pr.number(b.low)), Str(pr.number(Lots(b.volume, scale))), Str(pr.number(b.amount))])
  }

  function EastmoneyFields(pr: Printing, scale: nat, b: Bar): seq<string>
    requires scale > 0
  {
    [pr.day(b.timestamp), pr.number(b.open), pr.number(b.close), pr.number(b.high), pr.number(b.low),
     pr.number(Lots(b.volume, scale)), pr.number(b.amount), pr.number(b.turnover)]
  }

  function PrintRow(p: Provider, pr: Printing, scale: nat, b: Bar): Json
    requires scale > 0
  {
    match p
    case Tencent => PrintTencent(pr, scale, b)
    case Eastmoney => Str(Join(EastmoneyFields(pr, scale, b)))
  }

  /** What a provider's format can hold; Tencent's has no turnover. */
  ghost predicate Legible(p: Provider, rd: Reading, pr: Printing, scale: nat, b: Bar)
    requires scale > 0
  {
    && Consistent(b) && NumbersRead(rd, pr, scale, b) && DayReads(rd, pr, b.timestamp)
    && HasFloat(rd, b.volume as real)
    && (p.Tencent? ==> b.turnover == 0.0)
  }

  lemma MakesBar(b: Bar, scale: nat)
    requires scale > 0 && Consistent(b)
    ensures MakeBar(Some(b.timestamp), Some(b.open), Some(b.high), Some(b.low), Some(b.close),
                    Some(Lots(b.volume, scale)), Some(b.amount), Some(b.turnover), scale) == Some(b)
  {
    SharesOfLots(b.volume, scale);
  }

  lemma TencentRowReadsBack(rd: Reading, pr: Printing, scale: nat, b: Bar)
    requires scale > 0 && Legible(Tencent, rd, pr, scale, b)
    ensures TencentRow(rd, scale, PrintTencent(pr, scale, b)) == Some(b)
  {
    hide Lots, MakeBar, Consistent;
    MakesBar(b, scale);
    assert PrintTencent(pr, scale, b).items[6] != Str("");
  }

  lemma EastmoneyRowReadsBack(rd: Reading, pr: Printing, scale: nat, b: Bar)
    requires scale > 0 && Legible(Eastmoney, rd, pr, scale, b)
    ensures EastmoneyRow(rd, scale, Str(Join(EastmoneyFields(pr, scale, b)))) == Some(b)
  {
    hide Lots, MakeBar, Consistent, Split, Join;
    MakesBar(b, scale);
    SplitJoin(EastmoneyFields(pr, scale, b));
  }

  lemma RawReadsBack(p: Provider, rd: Reading, pr: Printing, scale: nat, b: Bar)
    requires scale > 0 && Legible(p, rd, pr, scale, b)
    ensures RawBar(p, rd, scale, PrintRow(p, pr, scale, b)) == Some(b)
  {
    hide TencentRow, EastmoneyRow, PrintTencent, EastmoneyFields, Legible;
    match p
    case Tencent => TencentRowReadsBack(rd, pr, scale, b);
    case Eastmoney => EastmoneyRowReadsBack(rd, pr, scale, b);
  }

  lemma VolumeReadsBack(p: Provider, rd: Reading, pr: Printing, scale: nat, b: Bar)
    requires scale > 0 && Legible(p, rd, pr, scale, b) && RawBar(p, rd, scale, PrintRow(p, pr, scale, b)).Some?
    ensures RawVolume(p, rd, scale, PrintRow(p, pr, scale, b)) == Lots(b.volume, scale)
  {
    hide RawBar, Split, Join, Consistent, Lots;
    if p.Eastmoney? {
      SplitJoin(EastmoneyFields(pr, scale, b));
    }
  }

  /** A printed row has only texts. */
  lemma NoCellRaises(p: Provider, rd: Reading, pr: Printing, scale: nat, b: Bar)
    requires scale > 0
    ensures !CellRaises(p, rd, PrintRow(p, pr, scale, b))
  {
    if p.Tencent? {
      var cells := TencentCells(PrintTencent(pr, scale, b).items);
      assert forall i | 0 <= i < |cells| :: cells[i].Str?;
    }
  }

  lemma RowReadsBack(p: Provider, rd: Reading, pr: Printing, scale: nat, b: Bar)
    requires scale > 0 && Legible(p, rd, pr, scale, b)
    ensures RowBar(p, rd, scale, PrintRow(p, pr, scale, b)) == Some(b)
    ensures RowOverflow(p, rd, scale, PrintRow(p, pr, scale, b)) == Never
  {
    hide RawBar, RawVolume, PrintRow, CellRaises, NumbersRead, Consistent, DayReads;
    RawReadsBack(p, rd, pr, scale, b);
    VolumeReadsBack(p, rd, pr, scale, b);
    NoCellRaises(p, rd, pr, scale, b);
    assert Lots(b.volume, scale) * scale as real == b.volume as real;
  }

  function PrintRows(p: Provider, pr: Printing, scale: nat, bars: seq<Bar>): (rows: seq<Json>)
    requires scale > 0
    ensures |rows| == |bars| && forall i | 0 <= i < |bars| :: rows[i] == PrintRow(p, pr, scale, bars[i])
  {
    seq(|bars|, i requires 0 <= i < |bars| => PrintRow(p, pr, scale, bars[i]))
  }

  /** The members around those that matter, on one level of a document. */
  datatype Around = Around(before: seq<Member>, after: seq<Member>)

  function Embed(a: Around, ms: seq<Member>): seq<Member> { a.before + ms + a.after }

  /** What surrounds the rows: other members on each level, and a status or none. */
  datatype Frame = Frame(status: Option<Json>, top: Around, data: Around, node: Around)

  function StatusMember(p: Provider, f: Frame): seq<Member> {
    match f.status
    case None => []
    case Some(v) => [Member(if p.Tencent? then "code" else "rc", v)]
  }

  function DataMembers(p: Provider, rows: Json, symbol: string, f: Frame): seq<Member> {
    match p
    case Tencent => Embed(f.data, [Member(symbol, Obj(Embed(f.node, [Member("qfqday", rows)])))])
    case Eastmoney => Embed(f.data, [Member("klines", rows)])
  }

  function TopMembers(p: Provider, rows: Json, symbol: string, f: Frame): seq<Member> {
    Embed(f.top, StatusMember(p, f) + [Member("data", Obj(DataMembers(p, rows, symbol, f)))])
  }

  function PrintDocument(p: Provider, pr: Printing, scale: nat, bars: seq<Bar>, symbol: string, f: Frame): Json
    requires scale > 0
  {
    Obj(TopMembers(p, Arr(PrintRows(p, pr, scale, bars)), symbol, f))
  }

  /** The surroundings repeat no key, and the status is a fine one. */
  ghost predicate Fits(p: Provider, rd: Reading, symbol: string, f: Frame) {
    && StatusFine(rd, f.status)
    && UniqueKeys(TopMembers(p, Null, symbol, f)) && UniqueKeys(DataMembers(p, Null, symbol, f))
    && UniqueKeys(Embed(f.node, [Member("qfqday", Null)]))
    && (f.status == None ==> Lookup(TopMembers(p, Null, symbol, f), if p.Tencent? then "code" else "rc") == None)
  }

  ghost predicate SameKeys(ps: seq<Member>, qs: seq<Member>) {
    |ps| == |qs| && forall i | 0 <= i < |ps| :: ps[i].key == qs[i].key
  }

  lemma KeysStayUnique(ps: seq<Member>, qs: seq<Member>)
    requires SameKeys(ps, qs) && UniqueKeys(ps)
    ensures UniqueKeys(qs)
  {
  }

  lemma NoneStays(ps: seq<Member>, qs: seq<Member>, key: string)
    requires SameKeys(ps, qs) && Lookup(ps, key) == None
    ensures Lookup(qs, key) == None
  {
    forall i | 0 <= i < |qs| ensures qs[i].key != key {
      assert ps[i].key == qs[i].key;
    }
  }

  lemma EmbedKeys(a: Around, ms: seq<Member>, ns: seq<Member>)
    requires SameKeys(ms, ns)
    ensures SameKeys(Embed(a, ms), Embed(a, ns))
  {
  }

  /** A member is found among unique keys. */
  lemma FoundIn(a: Around, ms: seq<Member>, i: nat)
    requires UniqueKeys(Embed(a, ms)) && i < |ms|
    ensures Lookup(Embed(a, ms), ms[i].key) == Some(ms[i].value)
  {
    assert Embed(a, ms)[|a.before| + i] == ms[i];
    LookupUnique(Embed(a, ms), |a.before| + i);
  }

  lemma NodeFound(rows: Json, f: Frame)
    requires UniqueKeys(Embed(f.node, [Member("qfqday", Null)]))
    ensures UniqueKeys(Embed(f.node, [Member("qfqday", rows)]))
    ensures Lookup(Embed(f.node, [Member("qfqday", rows)]), "qfqday") == Some(rows)
  {
    hide Embed, Lookup, UniqueKeys;
    EmbedKeys(f.node, [Member("qfqday", Null)], [Member("qfqday", rows)]);
    KeysStayUnique(Embed(f.node, [Member("qfqday", Null)]), Embed(f.node, [Member("qfqday", rows)]));
    FoundIn(f.node, [Member("qfqday", rows)], 0);
  }

  function DataMember(p: Provider, rows: Json, symbol: string, f: Frame): Member {
    match p
    case Tencent => Member(symbol, Obj(Embed(f.node, [Member("qfqday", rows)])))
    case Eastmoney => Member("klines", rows)
  }

  lemma DataFound(p: Provider, rows: Json, symbol: string, f: Frame)
    requires UniqueKeys(DataMembers(p, Null, symbol, f))
    ensures var m := DataMember(p, rows, symbol, f);
            && UniqueKeys(DataMembers(p, rows, symbol, f))
            && Lookup(DataMembers(p, rows, symbol, f), m.key) == Some(m.value)
  {
    hide Embed, Lookup, UniqueKeys;
    var m, n := DataMember(p, rows, symbol, f), DataMember(p, Null, symbol, f);
    EmbedKeys(f.data, [n], [m]);
    KeysStayUnique(Embed(f.data, [n]), Embed(f.data, [m]));
    FoundIn(f.data, [m], 0);
  }

  lemma TopFound(p: Provider, rd: Reading, rows: Json, symbol: string, f: Frame)
    requires Fits(p, rd, symbol, f)
    ensures var ps := TopMembers(p, rows, symbol, f);
            && UniqueKeys(ps)
            && Lookup(ps, "data") == Some(Obj(DataMembers(p, rows, symbol, f)))
            && Lookup(ps, if p.Tencent? then "code" else "rc") == f.status
  {
    hide Embed, Lookup, UniqueKeys, DataMembers, StatusFine;
    var ms := StatusMember(p, f) + [Member("data", Obj(DataMembers(p, rows, symbol, f)))];
    var ns := StatusMember(p, f) + [Member("data", Obj(DataMembers(p, Null, symbol, f)))];
    EmbedKeys(f.top, ns, ms);
    KeysStayUnique(Embed(f.top, ns), Embed(f.top, ms));
    FoundIn(f.top, ms, |ms| - 1);
    if f.status.Some? {
      FoundIn(f.top, ms, 0);
    } else {
      NoneStays(Embed(f.top, ns), Embed(f.top, ms), if p.Tencent? then "code" else "rc");
    }
  }

  lemma PrintedRowsAt(p: Provider, rd: Reading, pr: Printing, scale: nat, bars: seq<Bar>, symbol: string, f: Frame)
    requires scale > 0 && Fits(p, rd, symbol, f)
    ensures RowsAt(p, rd, PrintDocument(p, pr, scale, bars, symbol, f), symbol, PrintRows(p, pr, scale, bars))
  {
    hide Lookup, UniqueKeys, Embed, PrintRows, TopMembers, DataMembers, StatusFine;
    var rows := Arr(PrintRows(p, pr, scale, bars));
    TopFound(p, rd, rows, symbol, f);
    DataFound(p, rows, symbol, f);
    NodeFound(rows, f);
  }

  /** Rows that all make bars in rising order are all kept, in both modes. */
  lemma RisingRowsKept(made: seq<Option<Bar>>, over: seq<Overflow>, bars: seq<Bar>, strict: bool)
    requires |made| == |bars| == |over| && Ascending(bars)
    requires forall i | 0 <= i < |bars| :: made[i] == Some(bars[i]) && over[i] == Never
    ensures RowsResult(made, over, strict) == Ok(bars)
  {
    forall i | 0 <= i < |made| ensures Keeps(made, i) && !Raises(made, over, i) {}
    AllKept(made, |made|);
    assert Records(made, |made|) == bars;
  }

  /** A document printed from any rising list of bars, whatever surrounds its rows, is read back as
    that list, strictly and tolerantly. */
  lemma DocumentReadsBack(p: Provider, rd: Reading, pr: Printing, scale: nat, bars: seq<Bar>,
                          symbol: string, f: Frame, strict: bool)
    requires scale > 0 && Ascending(bars) && forall i | 0 <= i < |bars| :: Legible(p, rd, pr, scale, bars[i])
    requires Fits(p, rd, symbol, f)
    ensures ParseResult(p, rd, scale, PrintDocument(p, pr, scale, bars, symbol, f), symbol, strict) == Ok(bars)
  {
    hide PrintRow, PrintDocument, Legible, RowBar, RowOverflow, RowsResult, ParseResult, RowsAt, Ascending, Fits;
    var rows := PrintRows(p, pr, scale, bars);
    PrintedRowsAt(p, rd, pr, scale, bars, symbol, f);
    RowsReached(p, rd, scale, PrintDocument(p, pr, scale, bars, symbol, f), symbol, rows);
    forall i | 0 <= i < |bars|
      ensures RowBar(p, rd, scale, rows[i]) == Some(bars[i]) && RowOverflow(p, rd, scale, rows[i]) == Never
    {
      RowReadsBack(p, rd, pr, scale, bars[i]);
    }
    RisingRowsKept(RowBars(p, rd, scale, rows), Overflows(p, rd, scale, rows), bars, strict);
  }

  lemma RowIsValue(p: Provider, pr: Printing, scale: nat, b: Bar)
    requires scale > 0
    ensures IsValue(PrintRow(p, pr, scale, b))
  {
    hide EastmoneyFields, Lots, Join;
    if p.Tencent? {
      assert forall i | 0 <= i < 7 :: PrintTencent(pr, scale, b).items[i].Str?;
    }
  }

  ghost predicate AllValues(ms: seq<Member>) { forall i | 0 <= i < |ms| :: IsValue(ms[i].value) }

  /** What surrounds the rows are values. */
  ghost predicate FrameValues(f: Frame) {
    && (f.status.Some? ==> IsValue(f.status.value))
    && AllValues(f.top.before) && AllValues(f.top.after)
    && AllValues(f.data.before) && AllValues(f.data.after)
    && AllValues(f.node.before) && AllValues(f.node.after)
  }

  lemma EmbedIsValue(a: Around, ms: seq<Member>)
    requires UniqueKeys(Embed(a, ms)) && AllValues(a.before) && AllValues(a.after) && AllValues(ms)
    ensures IsValue(Obj(Embed(a, ms)))
  {
    hide UniqueKeys;
    forall i | 0 <= i < |Embed(a, ms)| ensures IsValue(Embed(a, ms)[i].value) {
      var m := Embed(a, ms)[i];
      assert m in a.before || m in ms || m in a.after;
    }
  }

  lemma RowsAreValues(p: Provider, pr: Printing, scale: nat, bars: seq<Bar>)
    requires scale > 0
    ensures IsValue(Arr(PrintRows(p, pr, scale, bars)))
  {
    hide PrintRow;
    var rows := PrintRows(p, pr, scale, bars);
    forall i | 0 <= i < |rows| ensures IsValue(rows[i]) {
      RowIsValue(p, pr, scale, bars[i]);
    }
  }

  lemma DataIsValue(p: Provider, rows: Json, symbol: string, f: Frame)
    requires UniqueKeys(DataMembers(p, Null, symbol, f)) && UniqueKeys(Embed(f.node, [Member("qfqday", Null)]))
    requires FrameValues(f) && IsValue(rows)
    ensures IsValue(Obj(DataMembers(p, rows, symbol, f)))
  {
    hide Embed, UniqueKeys, IsValue, Lookup;
    NodeFound(rows, f);
    DataFound(p, rows, symbol, f);
    EmbedIsValue(f.node, [Member("qfqday", rows)]);
    EmbedIsValue(f.data, [DataMember(p, rows, symbol, f)]);
  }

  lemma DocumentIsValue(p: Provider, rd: Reading, pr: Printing, scale: nat, bars: seq<Bar>, symbol: string, f: Frame)
    requires scale > 0 && Fits(p, rd, symbol, f) && FrameValues(f)
    ensures IsValue(PrintDocument(p, pr, scale, bars, symbol, f))
  {
    hide Embed, UniqueKeys, IsValue, Lookup, PrintRows, DataMembers, StatusFine;
    var rows := Arr(PrintRows(p, pr, scale, bars));
    RowsAreValues(p, pr, scale, bars);
    DataIsValue(p, rows, symbol, f);
    TopFound(p, rd, rows, symbol, f);
    EmbedIsValue(f.top, StatusMember(p, f) + [Member("data", Obj(DataMembers(p, rows, symbol, f)))]);
  }

  /** The whole way: the UTF-8 bytes of a document printed from any rising list of bars are read
    back as that list, strictly and tolerantly. */
  lemma BytesReadBack(p: Provider, rd: Reading, pr: Printing, scale: nat, bars: seq<Bar>, symbol: string, f: Frame,
                      strict: bool)
    requires scale > 0 && Ascending(bars) && forall i | 0 <= i < |bars| :: Legible(p, rd, pr, scale, bars[i])
    requires Fits(p, rd, symbol, f) && FrameValues(f)
    ensures BytesResult(p, rd, scale, Encode(Emit(PrintDocument(p, pr, scale, bars, symbol, f))), symbol, strict)
            == Ok(bars)
  {
    hide Legible, PrintDocument, Emit, Encode, ReadPayload, ParseResult, Ascending, Fits, FrameValues;
    DocumentIsValue(p, rd, pr, scale, bars, symbol, f);
    PayloadReadsBack(PrintDocument(p, pr, scale, bars, symbol, f), strict);
    DocumentReadsBack(p, rd, pr, scale, bars, symbol, f, strict);
  }

  /** The frames are there: the bare document with a status of zero. */
  lemma BareFrameFits(p: Provider, rd: Reading, symbol: string)
    ensures var none := Around([], []); var f := Frame(Some(Int(0)), none, none, none);
            Fits(p, rd, symbol, f) && FrameValues(f)
  {
  }

  // ----------------------------------------------------------------- the sorted formats

  lemma LookupUnique(ps: seq<Member>, i: nat)
    requires UniqueKeys(ps) && i < |ps|
    ensures Lookup(ps, ps[i].key) == Some(ps[i].value)
  {
    var v := Lookup(ps, ps[i].key);
  }

  function PrintFree(pr: Printing, req: S.Request, b: Bar): seq<Member>
    requires Printable(b.timestamp, req.daily)
  {
    [Member("code", Str(req.code)), Member("date", Str(StampText(b.timestamp, req.daily))),
     Member("open", Float(pr.number(b.open))), Member("high", Float(pr.number(b.high))),
     Member("low", Float(pr.number(b.low))), Member("close", Float(pr.number(b.close))),
     Member("volume", Int(b.volume)), Member("amount", Float(pr.number(b.amount))),
     Member("turnover", Float(pr.number(b.turnover)))]
  }

  ghost predicate Carries(ps: seq<Member>, pr: Printing, key: string, x: real) {
    Lookup(ps, key) == Some(Float(pr.number(x)))
  }

  lemma CarriedField(rd: Reading, pr: Printing, ps: seq<Member>, key: string, x: real)
    requires Carries(ps, pr, key, x) && NumberReads(rd, pr, x)
    ensures S.Field(rd, ps, key) == Some(x) && S.FieldOr(rd, ps, key, 0.0) == Some(x)
  {
    hide Lookup;
  }

  ghost predicate FreePairs(ps: seq<Member>, pr: Printing, req: S.Request, b: Bar)
    requires Printable(b.timestamp, req.daily)
  {
    && Lookup(ps, "code") == Some(Str(req.code))
    && Lookup(ps, "date") == Some(Str(StampText(b.timestamp, req.daily)))
    && Carries(ps, pr, "open", b.open) && Carries(ps, pr, "high", b.high)
    && Carries(ps, pr, "low", b.low) && Carries(ps, pr, "close", b.close)
    && Lookup(ps, "volume") == Some(Int(b.volume))
    && Carries(ps, pr, "amount", b.amount) && Carries(ps, pr, "turnover", b.turnover)
  }

  lemma FreeUnique(pr: Printing, req: S.Request, b: Bar)
    requires Printable(b.timestamp, req.daily)
    ensures UniqueKeys(PrintFree(pr, req, b))
  {
    hide StampText, Printable;
  }

  lemma FreeLookups(pr: Printing, req: S.Request, b: Bar)
    requires Printable(b.timestamp, req.daily)
    ensures FreePairs(PrintFree(pr, req, b), pr, req, b)
  {
    hide Lookup, StampText, Printable, UniqueKeys;
    var ps := PrintFree(pr, req, b);
    FreeUnique(pr, req, b);
    LookupUnique(ps, 0);
    LookupUnique(ps, 1);
    LookupUnique(ps, 2);
    LookupUnique(ps, 3);
    LookupUnique(ps, 4);
    LookupUnique(ps, 5);
    LookupUnique(ps, 6);
    LookupUnique(ps, 7);
    LookupUnique(ps, 8);
  }

  /** The format prints the volume as an integer. */
  ghost predicate FreeLegible(rd: Reading, pr: Printing, req: S.Request, b: Bar) {
    && Consistent(b) && PricesRead(rd, pr, b)
    && Printable(b.timestamp, req.daily) && S.InRange(req, b.timestamp)
  }

  lemma FreeRowReadsBack(rd: Reading, pr: Printing, req: S.Request, b: Bar)
    requires FreeLegible(rd, pr, req, b)
    ensures S.FreeRow(rd, req, Obj(PrintFree(pr, req, b))) == Some(b)
  {
    hide PrintFree, FreePairs, FreeLegible, S.RowStamp, S.Has, S.Required, S.Field, S.FieldOr, Lookup, PricesOk;
    FreeParts(rd, pr, req, b);
    var ps := PrintFree(pr, req, b);
    FreeLookups(pr, req, b);
    FreeHas(ps, pr, req, b);
    FreeFields(rd, pr, req, b, ps);
    FreeStamp(rd, pr, req, b, ps);
  }

  lemma FreeParts(rd: Reading, pr: Printing, req: S.Request, b: Bar)
    requires FreeLegible(rd, pr, req, b)
    ensures Printable(b.timestamp, req.daily) && PricesOk(b.open, b.high, b.low, b.close)
    ensures b.amount >= 0.0 && b.turnover >= 0.0 && b.volume >= 0
  {
  }

  lemma FreeHas(ps: seq<Member>, pr: Printing, req: S.Request, b: Bar)
    requires Printable(b.timestamp, req.daily) && FreePairs(ps, pr, req, b)
    ensures S.Has(ps, S.Required(req.daily))
  {
    hide Lookup, StampText, Printable;
  }

  lemma FreeFields(rd: Reading, pr: Printing, req: S.Request, b: Bar, ps: seq<Member>)
    requires FreeLegible(rd, pr, req, b) && FreePairs(ps, pr, req, b)
    ensures S.Field(rd, ps, "open") == Some(b.open) && S.Field(rd, ps, "close") == Some(b.close)
    ensures S.Field(rd, ps, "high") == Some(b.high) && S.Field(rd, ps, "low") == Some(b.low)
    ensures S.Field(rd, ps, "amount") == Some(b.amount) && S.FieldOr(rd, ps, "turnover", 0.0) == Some(b.turnover)
    ensures Lookup(ps, "volume") == Some(Int(b.volume))
  {
    hide Lookup, StampText, S.InRange, Consistent, Printable, NumberReads, Carries, S.Field, S.FieldOr;
    CarriedField(rd, pr, ps, "open", b.open);
    CarriedField(rd, pr, ps, "close", b.close);
    CarriedField(rd, pr, ps, "high", b.high);
    CarriedField(rd, pr, ps, "low", b.low);
    CarriedField(rd, pr, ps, "amount", b.amount);
    CarriedField(rd, pr, ps, "turnover", b.turnover);
  }

  lemma FreeStamp(rd: Reading, pr: Printing, req: S.Request, b: Bar, ps: seq<Member>)
    requires FreeLegible(rd, pr, req, b) && FreePairs(ps, pr, req, b)
    ensures S.RowStamp(rd, req, ps) == Some(b.timestamp)
  {
    hide Lookup, StampText, D.AsciiStamp, Consistent, S.InRange, Printable, PricesRead;
    StampReadsBack(b.timestamp, req.daily);
    D.AsciiOfAscii(rd.digit, StampText(b.timestamp, req.daily));
  }

  function PrintFreeRows(pr: Printing, req: S.Request, bars: seq<Bar>): (rows: seq<Json>)
    requires forall i | 0 <= i < |bars| :: Printable(bars[i].timestamp, req.daily)
    ensures |rows| == |bars| && forall i | 0 <= i < |bars| :: rows[i] == Obj(PrintFree(pr, req, bars[i]))
  {
    seq(|bars|, i requires 0 <= i < |bars| => Obj(PrintFree(pr, req, bars[i])))
  }

  lemma {:induction false} CollectPrinted(check: S.Check, rows: seq<Json>, bars: seq<Bar>)
    requires |rows| == |bars| && forall i | 0 <= i < |rows| :: check(rows[i]) == Some(bars[i])
    ensures S.Collect(check, rows) == Some(bars)
  {
    if rows != [] {
      var n := |rows| - 1;
      CollectPrinted(check, rows[..n], bars[..n]);
      assert bars == bars[..n] + [bars[n]];
    }
  }

  /** Printed in any order, a document with the rows of a rising list of bars is read as it. */
  lemma FreeDocumentReadsBack(rd: Reading, pr: Printing, req: S.Request, bars: seq<Bar>, rows: seq<Json>)
    requires Ascending(bars) && forall i | 0 <= i < |bars| :: FreeLegible(rd, pr, req, bars[i])
    requires forall i | 0 <= i < |bars| :: Printable(bars[i].timestamp, req.daily)
    requires multiset(rows) == multiset(PrintFreeRows(pr, req, bars))
    ensures S.FreeResult(rd, req, Arr(rows)) == Some(bars)
  {
    hide PrintFree, FreeLegible, S.FreeRow, S.FreeResult;
    var printed := PrintFreeRows(pr, req, bars);
    var check := S.FreeCheck(rd, req);
    forall i | 0 <= i < |printed| ensures check(printed[i]) == Some(bars[i]) {
      FreeRowReadsBack(rd, pr, req, bars[i]);
    }
    CollectPrinted(check, printed, bars);
    S.ArrangedExact(check, printed, bars);
    FreeOfRows(rd, req, printed);
    S.FreeRowOrder(rd, req, rows, printed);
  }

  /** The number texts of a bar are JSON floats. */
  ghost predicate FloatTexts(pr: Printing, b: Bar) {
    && FloatText(pr.number(b.open)) && FloatText(pr.number(b.high)) && FloatText(pr.number(b.low))
    && FloatText(pr.number(b.close)) && FloatText(pr.number(b.amount)) && FloatText(pr.number(b.turnover))
  }

  lemma FreeIsValue(pr: Printing, req: S.Request, b: Bar)
    requires Printable(b.timestamp, req.daily) && FloatTexts(pr, b)
    ensures IsValue(Obj(PrintFree(pr, req, b)))
  {
    hide StampText, Printable, FloatText, UniqueKeys;
    FreeUnique(pr, req, b);
  }

  lemma PermutedValues(rows: seq<Json>, printed: seq<Json>)
    requires multiset(rows) == multiset(printed) && forall i | 0 <= i < |printed| :: IsValue(printed[i])
    ensures IsValue(Arr(rows))
  {
    forall i | 0 <= i < |rows| ensures IsValue(rows[i]) {
      assert rows[i] in multiset(printed);
    }
  }

  /** The same from the bytes on. */
  lemma FreeBytesReadBack(rd: Reading, pr: Printing, req: S.Request, bars: seq<Bar>, rows: seq<Json>)
    requires Ascending(bars) && forall i | 0 <= i < |bars| :: FreeLegible(rd, pr, req, bars[i])
    requires forall i | 0 <= i < |bars| :: Printable(bars[i].timestamp, req.daily) && FloatTexts(pr, bars[i])
    requires multiset(rows) == multiset(PrintFreeRows(pr, req, bars))
    ensures S.FreeBytes(rd, req, Encode(Emit(Arr(rows)))) == Some(bars)
  {
    hide PrintFree, FreeLegible, S.FreeResult, Emit, Encode, ReadPayload, Printable, FloatTexts, Ascending, IsValue;
    var printed := PrintFreeRows(pr, req, bars);
    forall i | 0 <= i < |printed| ensures IsValue(printed[i]) {
      FreeIsValue(pr, req, bars[i]);
    }
    PermutedValues(rows, printed);
    PayloadReadsBack(Arr(rows), true);
    FreeDocumentReadsBack(rd, pr, req, bars, rows);
  }

  lemma FreeOfRows(rd: Reading, req: S.Request, rows: seq<Json>)
    requires forall i | 0 <= i < |rows| :: rows[i].Obj?
    ensures S.FreeResult(rd, req, Arr(rows)) == S.Arranged(S.FreeCheck(rd, req), rows)
  {
  }

  function PrintHithink(pr: Printing, millis: int, b: Bar): seq<Member> {
    [Member("date_ms", Int(millis)), Member("open_price", Float(pr.number(b.open))),
     Member("high_price", Float(pr.number(b.high))), Member("low_price", Float(pr.number(b.low))),
     Member("close_price", Float(pr.number(b.close))), Member("volume", Float(pr.number(b.volume as real))),
     Member("turnover", Float(pr.number(b.amount)))]
  }

  /** A bar the format can hold, printed with an epoch millisecond of its day. */
  ghost predicate HithinkLegible(rd: Reading, pr: Printing, midnight: int -> Option<int>, limit: int,
                                 millis: int, b: Bar)
  {
    && Consistent(b) && b.turnover == 0.0 && NumbersRead(rd, pr, 1, b)
    && 0 < millis <= limit && midnight(millis) == Some(b.timestamp)
  }

  ghost predicate HithinkPairs(ps: seq<Member>, pr: Printing, millis: int, b: Bar) {
    && Lookup(ps, "date_ms") == Some(Int(millis))
    && Carries(ps, pr, "open_price", b.open) && Carries(ps, pr, "high_price", b.high)
    && Carries(ps, pr, "low_price", b.low) && Carries(ps, pr, "close_price", b.close)
    && Carries(ps, pr, "volume", b.volume as real) && Carries(ps, pr, "turnover", b.amount)
  }

  lemma HithinkUnique(pr: Printing, millis: int, b: Bar)
    ensures UniqueKeys(PrintHithink(pr, millis, b))
  {
  }

  lemma HithinkLookups(pr: Printing, millis: int, b: Bar)
    ensures HithinkPairs(PrintHithink(pr, millis, b), pr, millis, b)
  {
    hide Lookup, UniqueKeys;
    var ps := PrintHithink(pr, millis, b);
    HithinkUnique(pr, millis, b);
    LookupUnique(ps, 0);
    LookupUnique(ps, 1);
    LookupUnique(ps, 2);
    LookupUnique(ps, 3);
    LookupUnique(ps, 4);
    LookupUnique(ps, 5);
    LookupUnique(ps, 6);
  }

  lemma HithinkHas(ps: seq<Member>, pr: Printing, millis: int, b: Bar)
    requires HithinkPairs(ps, pr, millis, b)
    ensures S.Has(ps, S.HITHINK_FIELDS)
  {
    hide Lookup;
  }

  lemma HithinkFields(rd: Reading, pr: Printing, millis: int, b: Bar, ps: seq<Member>)
    requires NumbersRead(rd, pr, 1, b) && HithinkPairs(ps, pr, millis, b)
    ensures S.Field(rd, ps, "open_price") == Some(b.open) && S.Field(rd, ps, "close_price") == Some(b.close)
    ensures S.Field(rd, ps, "high_price") == Some(b.high) && S.Field(rd, ps, "low_price") == Some(b.low)
    ensures S.Field(rd, ps, "turnover") == Some(b.amount) && S.Field(rd, ps, "volume") == Some(b.volume as real)
    ensures Lookup(ps, "date_ms") == Some(Int(millis))
  {
    hide Lookup, NumberReads, Carries, S.Field;
    assert Lots(b.volume, 1) == b.volume as real;
    CarriedField(rd, pr, ps, "open_price", b.open);
    CarriedField(rd, pr, ps, "close_price", b.close);
    CarriedField(rd, pr, ps, "high_price", b.high);
    CarriedField(rd, pr, ps, "low_price", b.low);
    CarriedField(rd, pr, ps, "turnover", b.amount);
    CarriedField(rd, pr, ps, "volume", b.volume as real);
  }

  lemma HithinkParts(rd: Reading, pr: Printing, midnight: int -> Option<int>, limit: int, millis: int, b: Bar)
    requires HithinkLegible(rd, pr, midnight, limit, millis, b)
    ensures PricesOk(b.open, b.high, b.low, b.close) && NumbersRead(rd, pr, 1, b)
    ensures b.amount >= 0.0 && b.turnover == 0.0 && b.volume >= 0 && RoundHalfEven(b.volume as real) == b.volume
    ensures 0 < millis <= limit && midnight(millis) == Some(b.timestamp)
  {
  }

  lemma HithinkRowReadsBack(rd: Reading, pr: Printing, midnight: int -> Option<int>, limit: int, millis: int, b: Bar)
    requires HithinkLegible(rd, pr, midnight, limit, millis, b)
    ensures S.HithinkRow(rd, midnight, limit, Obj(PrintHithink(pr, millis, b))) == Some(b)
  {
    hide PrintHithink, HithinkPairs, HithinkLegible, NumbersRead, S.Has, S.Field, Lookup, PricesOk, RoundHalfEven;
    var ps := PrintHithink(pr, millis, b);
    HithinkParts(rd, pr, midnight, limit, millis, b);
    HithinkLookups(pr, millis, b);
    HithinkHas(ps, pr, millis, b);
    HithinkFields(rd, pr, millis, b, ps);
  }

  function PrintHithinkRows(pr: Printing, millis: seq<int>, bars: seq<Bar>): (rows: seq<Json>)
    requires |millis| == |bars|
    ensures |rows| == |bars| && forall i | 0 <= i < |bars| :: rows[i] == Obj(PrintHithink(pr, millis[i], bars[i]))
  {
    seq(|bars|, i requires 0 <= i < |bars| => Obj(PrintHithink(pr, millis[i], bars[i])))
  }

  /** The same for an envelope of HiThink Finance. */
  lemma HithinkDocumentReadsBack(rd: Reading, pr: Printing, midnight: int -> Option<int>, millis: seq<int>,
                                 bars: seq<Bar>, payload: Json)
    requires |millis| == |bars| && Ascending(bars) && S.Envelope(payload).Some?
    requires forall i | 0 <= i < |bars| ::
               HithinkLegible(rd, pr, midnight, S.Envelope(payload).value.0, millis[i], bars[i])
    requires multiset(S.Envelope(payload).value.1) == multiset(PrintHithinkRows(pr, millis, bars))
    ensures S.HithinkResult(rd, midnight, payload) == Some(bars)
  {
    hide PrintHithink, HithinkLegible, S.HithinkRow, S.Envelope, Ascending;
    var (limit, rows) := S.Envelope(payload).value;
    var printed := PrintHithinkRows(pr, millis, bars);
    var check := S.HithinkCheck(rd, midnight, limit);
    forall i | 0 <= i < |printed| ensures check(printed[i]) == Some(bars[i]) {
      HithinkRowReadsBack(rd, pr, midnight, limit, millis[i], bars[i]);
    }
    CollectPrinted(check, printed, bars);
    S.ArrangedExact(check, printed, bars);
    S.ArrangedPermutes(check, rows, printed);
  }

  /** The same from the bytes on, for an envelope that is a JSON value. */
  lemma HithinkBytesReadBack(rd: Reading, pr: Printing, midnight: int -> Option<int>, millis: seq<int>,
                             bars: seq<Bar>, payload: Json)
    requires |millis| == |bars| && Ascending(bars) && S.Envelope(payload).Some? && IsValue(payload)
    requires forall i | 0 <= i < |bars| ::
               HithinkLegible(rd, pr, midnight, S.Envelope(payload).value.0, millis[i], bars[i])
    requires multiset(S.Envelope(payload).value.1) == multiset(PrintHithinkRows(pr, millis, bars))
    ensures S.HithinkBytes(rd, midnight, Encode(Emit(payload))) == Some(bars)
  {
    hide S.HithinkResult, HithinkLegible, Emit, Encode, ReadPayload, S.Envelope, Ascending, IsValue;
    PayloadReadsBack(payload, true);
    HithinkDocumentReadsBack(rd, pr, midnight, millis, bars, payload);
  }
}
