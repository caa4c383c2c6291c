/** Exactly which rows make which bars, field by field, in each of the four formats
  (stock_tracker/collector/). */
module RowMeanings {
  import opened Prelude
  import opened Numerals
  import opened CanonicalJson
  import opened Bars
  import opened DateDigits
  import P = BarParsers
  import S = SortedBarParsers

  /** A JSON number that stands for `x`; an integer needs a float. */
  ghost predicate Stands(rd: Reading, v: Json, x: real) {
    (v.Int? && x == v.n as real && -rd.limit < x < rd.limit) || (v.Float? && rd.number(v.text) == Some(x))
  }

  /** A cell of Tencent's, which may also be a text. */
  ghost predicate CellStands(rd: Reading, v: Json, x: real) {
    Stands(rd, v, x) || (v.Str? && rd.number(v.s) == Some(x))
  }

  /** Four positive prices, the low one lowest and the high one highest; no negative amount. */
  ghost predicate Sound(b: Bar) {
    && 0.0 < b.low <= b.open <= b.high && b.low <= b.close <= b.high
    && b.amount >= 0.0 && b.turnover >= 0.0
  }

  lemma PricesExact(open: real, high: real, low: real, close: real)
    ensures PricesOk(open, high, low, close) <==> 0.0 < low <= open <= high && low <= close <= high
  {
  }

  // ------------------------------------------------------------- the chronological formats

  /** The volume is in lots of `scale` shares, rounded to the nearest share, ties to even. */
  ghost predicate Scaled(lots: real, scale: nat, volume: int) {
    var x := lots * scale as real;
    && lots >= 0.0 && -0.5 <= x - volume as real <= 0.5
    && (x - volume as real == 0.5 || x - volume as real == -0.5 ==> volume % 2 == 0)
  }

  lemma ScaledExact(lots: real, scale: nat, volume: int)
    requires lots >= 0.0
    ensures Scaled(lots, scale, volume) <==> P.Shares(lots, scale) == volume
  {
    var x, r := lots * scale as real, P.Shares(lots, scale);
    assert RoundHalfEven(x) == r;
    OneNearest(x, r, volume);
  }

  lemma OneNearest(x: real, r: int, q: int)
    requires -0.5 <= x - r as real <= 0.5 && (x - r as real == 0.5 || x - r as real == -0.5 ==> r % 2 == 0)
    ensures -0.5 <= x - q as real <= 0.5 && (x - q as real == 0.5 || x - q as real == -0.5 ==> q % 2 == 0)
            <==> q == r
  {
    if q < r {
      assert (r - q) as real >= 1.0;
      if r - q == 1 && x - q as real == 0.5 { assert x - r as real == -0.5; }
    } else if r < q {
      assert (q - r) as real >= 1.0;
      if q - r == 1 && x - r as real == 0.5 { assert x - q as real == -0.5; }
    }
  }

  /** Tencent's columns are day, open, close, high, low, volume and perhaps an amount. */
  ghost predicate TencentMeans(rd: Reading, scale: nat, xs: seq<Json>, b: Bar) {
    && |xs| >= 6
    && xs[0].Str? && rd.day(xs[0].s) == Some(b.timestamp)
    && CellStands(rd, xs[1], b.open) && CellStands(rd, xs[2], b.close)
    && CellStands(rd, xs[3], b.high) && CellStands(rd, xs[4], b.low)
    && (exists lots :: CellStands(rd, xs[5], lots) && Scaled(lots, scale, b.volume))
    && (if |xs| == 6 || xs[6] == Null || xs[6] == Str("") then b.amount == 0.0 else CellStands(rd, xs[6], b.amount))
    && b.turnover == 0.0 && Sound(b)
  }

  lemma CellExact(rd: Reading, v: Json, x: real)
    ensures CellStands(rd, v, x) <==> P.CellNumber(rd, v) == Some(x)
  {
  }

  lemma MakeExact(day: Option<int>, open: Option<real>, high: Option<real>, low: Option<real>, close: Option<real>,
                  volume: Option<real>, amount: Option<real>, turnover: Option<real>, scale: nat, b: Bar)
    ensures P.MakeBar(day, open, high, low, close, volume, amount, turnover, scale) == Some(b)
            <==> && day == Some(b.timestamp) && open == Some(b.open) && high == Some(b.high) && low == Some(b.low)
                 && close == Some(b.close) && amount == Some(b.amount) && turnover == Some(b.turnover)
                 && volume.Some? && Scaled(volume.value, scale, b.volume) && Sound(b)
  {
    hide P.Shares, Scaled, PricesOk;
    if volume.Some? && volume.value >= 0.0 { ScaledExact(volume.value, scale, b.volume); }
    if volume.Some? && volume.value < 0.0 { NotScaled(volume.value, scale, b.volume); }
    if open.Some? && high.Some? && low.Some? && close.Some? {
      PricesExact(open.value, high.value, low.value, close.value);
    }
  }

  lemma NotScaled(lots: real, scale: nat, volume: int)
    requires lots < 0.0
    ensures !Scaled(lots, scale, volume)
  {
  }

  lemma TencentRowExact(rd: Reading, scale: nat, row: Json, b: Bar)
    ensures P.TencentRow(rd, scale, row) == Some(b) <==> row.Arr? && TencentMeans(rd, scale, row.items, b)
  {
    hide P.MakeBar, CellStands, P.CellNumber, Scaled, Sound;
    if row.Arr? && |row.items| >= 6 {
      var xs := row.items;
      CellExact(rd, xs[1], b.open);
      CellExact(rd, xs[2], b.close);
      CellExact(rd, xs[3], b.high);
      CellExact(rd, xs[4], b.low);
      forall lots ensures CellStands(rd, xs[5], lots) <==> P.CellNumber(rd, xs[5]) == Some(lots) {
        CellExact(rd, xs[5], lots);
      }
      var amount := if |xs| > 6 && xs[6] != Str("") && xs[6] != Null then P.CellNumber(rd, xs[6]) else Some(0.0);
      if |xs| > 6 { CellExact(rd, xs[6], b.amount); }
      MakeExact(if xs[0].Str? then rd.day(xs[0].s) else None, P.CellNumber(rd, xs[1]), P.CellNumber(rd, xs[3]),
                P.CellNumber(rd, xs[4]), P.CellNumber(rd, xs[2]), P.CellNumber(rd, xs[5]), amount, Some(0.0), scale, b);
    }
  }

  ghost predicate Positive(rd: Reading, v: Json) { exists x :: CellStands(rd, v, x) && x > 0.0 }

  ghost predicate NotNegative(rd: Reading, v: Json) { exists x :: CellStands(rd, v, x) && x >= 0.0 }

  /** An integer that `float` cannot take. */
  ghost predicate TooWide(rd: Reading, v: Json) { v.Int? && !(-rd.limit < v.n as real < rd.limit) }

  /** The cells of a row are read one after the other, and the first bad one ends the reading: the row
    raises when an integer beyond the float range is reached. */
  ghost predicate TencentRaises(rd: Reading, xs: seq<Json>) {
    && |xs| >= 6 && xs[0].Str? && rd.day(xs[0].s).Some?
    && (|| TooWide(rd, xs[1])
        || (Positive(rd, xs[1]) && TooWide(rd, xs[2]))
        || (Positive(rd, xs[1]) && Positive(rd, xs[2]) && TooWide(rd, xs[3]))
        || (Positive(rd, xs[1]) && Positive(rd, xs[2]) && Positive(rd, xs[3]) && TooWide(rd, xs[4]))
        || (Positive(rd, xs[1]) && Positive(rd, xs[2]) && Positive(rd, xs[3]) && Positive(rd, xs[4])
            && (TooWide(rd, xs[5])
                || (NotNegative(rd, xs[5]) && |xs| > 6 && TooWide(rd, xs[6])))))
  }

  lemma PassesExact(rd: Reading, cells: seq<Json>, i: nat)
    requires i < |cells|
    ensures P.Passes(rd, cells, i) <==> if i < 4 then Positive(rd, cells[i]) else NotNegative(rd, cells[i])
  {
    hide CellStands, P.CellNumber;
    forall x ensures CellStands(rd, cells[i], x) <==> P.CellNumber(rd, cells[i]) == Some(x) {
      CellExact(rd, cells[i], x);
    }
    if P.CellNumber(rd, cells[i]).Some? {
      assert CellStands(rd, cells[i], P.CellNumber(rd, cells[i]).value);
    }
  }

  lemma CellsOf(xs: seq<Json>)
    requires |xs| >= 6
    ensures var cells := P.TencentCells(xs);
            && 5 <= |cells| <= 6 && (|cells| == 6 <==> |xs| > 6 && xs[6] != Str("") && xs[6] != Null)
            && cells[0] == xs[1] && cells[1] == xs[2] && cells[2] == xs[3] && cells[3] == xs[4] && cells[4] == xs[5]
            && (|cells| == 6 ==> cells[5] == xs[6])
  {
  }

  /** Raising at a cell, for the first cell that does. */
  ghost predicate RaisesAtCell(rd: Reading, cells: seq<Json>, i: nat)
    requires i < |cells|
  {
    P.Beyond(rd, cells[i]) && forall j | 0 <= j < i :: P.Passes(rd, cells, j)
  }

  lemma TencentRaisesExact(rd: Reading, row: Json)
    ensures P.CellRaises(P.Tencent, rd, row) <==> row.Arr? && TencentRaises(rd, row.items)
  {
    hide P.Passes, Positive, NotNegative, P.TencentCells;
    if row.Arr? && |row.items| >= 6 {
      var cells := P.TencentCells(row.items);
      CellsOf(row.items);
      forall i | 0 <= i < |cells|
        ensures P.Passes(rd, cells, i) <==> if i < 4 then Positive(rd, cells[i]) else NotNegative(rd, cells[i])
      {
        PassesExact(rd, cells, i);
      }
      assert (exists i | 0 <= i < |cells| :: RaisesAtCell(rd, cells, i)) <==>
             || RaisesAtCell(rd, cells, 0) || RaisesAtCell(rd, cells, 1) || RaisesAtCell(rd, cells, 2)
             || RaisesAtCell(rd, cells, 3) || RaisesAtCell(rd, cells, 4)
             || (|cells| == 6 && RaisesAtCell(rd, cells, 5));
    }
  }

  lemma EastmoneyNeverRaisesAtCell(rd: Reading, row: Json)
    ensures !P.CellRaises(P.Eastmoney, rd, row)
  {
  }

  /** The volume raises exactly when the row makes a bar and its scaled volume has no float. */
  lemma VolumeRaisesExact(p: P.Provider, rd: Reading, scale: nat, row: Json, t: int)
    ensures P.RowOverflow(p, rd, scale, row) == P.AtVolume(t) <==>
              && !P.CellRaises(p, rd, row)
              && exists b :: && P.RawBar(p, rd, scale, row) == Some(b) && b.timestamp == t
                             && !(-rd.limit < P.RawVolume(p, rd, scale, row) * scale as real < rd.limit)
  {
    hide P.CellRaises, P.RawBar, P.RawVolume;
  }

  ghost predicate TextStands(rd: Reading, s: string, x: real) { rd.number(s) == Some(x) }

  /** Eastmoney's columns are day, open, close, high, low, volume, amount, turnover and any more; an
    empty amount or turnover is zero. */
  ghost predicate EastmoneyMeans(rd: Reading, scale: nat, fields: seq<string>, b: Bar) {
    && |fields| >= 8
    && rd.day(fields[0]) == Some(b.timestamp)
    && TextStands(rd, fields[1], b.open) && TextStands(rd, fields[2], b.close)
    && TextStands(rd, fields[3], b.high) && TextStands(rd, fields[4], b.low)
    && (exists lots :: TextStands(rd, fields[5], lots) && Scaled(lots, scale, b.volume))
    && (if fields[6] == "" then b.amount == 0.0 else TextStands(rd, fields[6], b.amount))
    && (if fields[7] == "" then b.turnover == 0.0 else TextStands(rd, fields[7], b.turnover))
    && Sound(b)
  }

  lemma EastmoneyRowExact(rd: Reading, scale: nat, fields: seq<string>, b: Bar)
    requires |fields| >= 1 && forall i | 0 <= i < |fields| :: ',' !in fields[i]
    ensures P.EastmoneyRow(rd, scale, Str(P.Join(fields))) == Some(b) <==> EastmoneyMeans(rd, scale, fields, b)
  {
    hide P.MakeBar, Scaled, Sound, P.Join, P.Split;
    P.SplitJoin(fields);
    if |fields| >= 8 {
      MakeExact(rd.day(fields[0]), rd.number(fields[1]), rd.number(fields[3]), rd.number(fields[4]),
                rd.number(fields[2]), rd.number(fields[5]), P.OrZero(rd, fields[6]), P.OrZero(rd, fields[7]), scale, b);
      if rd.number(fields[5]).Some? { assert TextStands(rd, fields[5], rd.number(fields[5]).value); }
    }
  }

  // ------------------------------------------------------------------ the sorted formats

  /** A member that stands for `x`. */
  ghost predicate MemberStands(rd: Reading, ps: seq<Member>, key: string, x: real) {
    match Lookup(ps, key) case Some(v) => Stands(rd, v, x) case None => false
  }

  /** A member that is a text, or an integer printed as one. */
  ghost predicate Shows(ps: seq<Member>, key: string, text: string) {
    match Lookup(ps, key)
    case Some(Str(s)) => s == text
    case Some(Int(n)) => n >= 0 && NatText(n) == text
    case _ => false
  }

  /** A row of free-stockdb: the requested code, a date inside the requested range, the numbers, and
    a whole volume. A minute row may lack the turnover. */
  ghost predicate FreeMeans(rd: Reading, req: S.Request, ps: seq<Member>, b: Bar) {
    && Shows(ps, "code", req.code)
    && (exists date :: Shows(ps, "date", date) && Stamp(rd.digit, date, req.daily) == Some(b.timestamp))
    && (req.start.Some? ==>
          if req.daily then req.start.value / 86_400 <= b.timestamp / 86_400 else req.start.value <= b.timestamp)
    && (req.end.Some? ==>
          if req.daily then b.timestamp / 86_400 <= req.end.value / 86_400 else b.timestamp <= req.end.value)
    && MemberStands(rd, ps, "open", b.open) && MemberStands(rd, ps, "high", b.high)
    && MemberStands(rd, ps, "low", b.low) && MemberStands(rd, ps, "close", b.close)
    && MemberStands(rd, ps, "amount", b.amount)
    && (if Lookup(ps, "turnover").None? then !req.daily && b.turnover == 0.0
        else MemberStands(rd, ps, "turnover", b.turnover))
    && Lookup(ps, "volume") == Some(Int(b.volume)) && b.volume >= 0
    && Sound(b)
  }

  lemma FieldExact(rd: Reading, ps: seq<Member>, key: string, x: real)
    ensures MemberStands(rd, ps, key, x) <==> S.Field(rd, ps, key) == Some(x)
    ensures MemberStands(rd, ps, key, x) ==> Lookup(ps, key).Some?
  {
    hide Lookup;
  }

  lemma ShowsExact(ps: seq<Member>, key: string, text: string)
    ensures Shows(ps, key, text)
            <==> Lookup(ps, key).Some? && S.DigitText(Lookup(ps, key).value) == Some(text)
  {
    hide Lookup;
  }

  lemma StampExact(rd: Reading, req: S.Request, ps: seq<Member>, t: int)
    ensures S.RowStamp(rd, req, ps) == Some(t) <==>
              && Shows(ps, "code", req.code)
              && (exists date :: Shows(ps, "date", date) && Stamp(rd.digit, date, req.daily) == Some(t))
              && S.InRange(req, t)
  {
    hide Lookup, Stamp, S.InRange, S.DigitText, Shows;
    ShowsExact(ps, "code", req.code);
    forall date
      ensures Shows(ps, "date", date)
              <==> Lookup(ps, "date").Some? && S.DigitText(Lookup(ps, "date").value) == Some(date)
    {
      ShowsExact(ps, "date", date);
    }
    if Lookup(ps, "date").Some? && S.DigitText(Lookup(ps, "date").value).Some? {
      assert Shows(ps, "date", S.DigitText(Lookup(ps, "date").value).value);
    }
  }

  lemma RangeExact(req: S.Request, t: int)
    ensures S.InRange(req, t) <==>
              && (req.start.Some? ==>
                    if req.daily then req.start.value / 86_400 <= t / 86_400 else req.start.value <= t)
              && (req.end.Some? ==> if req.daily then t / 86_400 <= req.end.value / 86_400 else t <= req.end.value)
  {
  }

  /** The nine keys of a daily row; a minute row needs no turnover. */
  lemma RequiredExact(ps: seq<Member>, daily: bool)
    ensures S.Has(ps, S.Required(daily)) <==>
              && Lookup(ps, "code").Some? && Lookup(ps, "date").Some?
              && Lookup(ps, "open").Some? && Lookup(ps, "high").Some?
              && Lookup(ps, "low").Some? && Lookup(ps, "close").Some?
              && Lookup(ps, "volume").Some? && Lookup(ps, "amount").Some?
              && (daily ==> Lookup(ps, "turnover").Some?)
  {
    hide Lookup;
    var keys := S.Required(daily);
    assert keys[0] == "code" && keys[1] == "date" && keys[2] == "open" && keys[3] == "high";
    assert keys[4] == "low" && keys[5] == "close" && keys[6] == "volume" && keys[7] == "amount";
    assert daily ==> keys[8] == "turnover";
  }

  lemma FreeRowExact(rd: Reading, req: S.Request, ps: seq<Member>, b: Bar)
    ensures S.FreeRow(rd, req, Obj(ps)) == Some(b) <==> FreeMeans(rd, req, ps, b)
  {
    hide Lookup, S.RowStamp, S.InRange, S.Has, S.Required, S.Field, PricesOk, Shows, Stamp, MemberStands;
    StampExact(rd, req, ps, b.timestamp);
    RangeExact(req, b.timestamp);
    RequiredExact(ps, req.daily);
    FieldExact(rd, ps, "open", b.open);
    FieldExact(rd, ps, "high", b.high);
    FieldExact(rd, ps, "low", b.low);
    FieldExact(rd, ps, "close", b.close);
    FieldExact(rd, ps, "amount", b.amount);
    FieldExact(rd, ps, "turnover", b.turnover);
    ShowsThere(ps, "code", req.code);
    forall date | Shows(ps, "date", date) ensures Lookup(ps, "date").Some? { ShowsThere(ps, "date", date); }
    if S.Field(rd, ps, "open").Some? && S.Field(rd, ps, "high").Some? && S.Field(rd, ps, "low").Some?
       && S.Field(rd, ps, "close").Some? {
      PricesExact(S.Field(rd, ps, "open").value, S.Field(rd, ps, "high").value, S.Field(rd, ps, "low").value,
                  S.Field(rd, ps, "close").value);
    }
    PricesExact(b.open, b.high, b.low, b.close);
  }

  lemma ShowsThere(ps: seq<Member>, key: string, text: string)
    ensures Shows(ps, key, text) ==> Lookup(ps, key).Some?
  {
    hide Lookup;
  }

  /** A row of HiThink Finance: an epoch millisecond up to the limit, the numbers, and a volume that
    is rounded. The column `turnover` is the amount. */
  ghost predicate HithinkMeans(rd: Reading, midnight: int -> Option<int>, limit: int, ps: seq<Member>, b: Bar) {
    && (exists millis: int ::
          Lookup(ps, "date_ms") == Some(Int(millis)) && 0 < millis <= limit && midnight(millis) == Some(b.timestamp))
    && MemberStands(rd, ps, "open_price", b.open) && MemberStands(rd, ps, "high_price", b.high)
    && MemberStands(rd, ps, "low_price", b.low) && MemberStands(rd, ps, "close_price", b.close)
    && MemberStands(rd, ps, "turnover", b.amount)
    && (exists volume :: MemberStands(rd, ps, "volume", volume) && Scaled(volume, 1, b.volume))
    && b.turnover == 0.0 && Sound(b)
  }

  lemma HithinkKeys(ps: seq<Member>)
    ensures S.Has(ps, S.HITHINK_FIELDS) <==>
              && Lookup(ps, "date_ms").Some? && Lookup(ps, "open_price").Some? && Lookup(ps, "high_price").Some?
              && Lookup(ps, "low_price").Some? && Lookup(ps, "close_price").Some?
              && Lookup(ps, "volume").Some? && Lookup(ps, "turnover").Some?
  {
    hide Lookup;
    var keys := S.HITHINK_FIELDS;
    assert keys[0] == "date_ms" && keys[1] == "open_price" && keys[2] == "high_price" && keys[3] == "low_price";
    assert keys[4] == "close_price" && keys[5] == "volume" && keys[6] == "turnover";
  }

  lemma WholeScale(x: real, volume: int)
    requires x >= 0.0
    ensures Scaled(x, 1, volume) <==> RoundHalfEven(x) == volume
  {
    OneNearest(x, RoundHalfEven(x), volume);
  }

  lemma HithinkRowExact(rd: Reading, midnight: int -> Option<int>, limit: int, ps: seq<Member>, b: Bar)
    ensures S.HithinkRow(rd, midnight, limit, Obj(ps)) == Some(b) <==> HithinkMeans(rd, midnight, limit, ps, b)
  {
    hide Lookup, S.Has, S.Field, PricesOk, MemberStands, Scaled, RoundHalfEven;
    HithinkKeys(ps);
    FieldExact(rd, ps, "open_price", b.open);
    FieldExact(rd, ps, "high_price", b.high);
    FieldExact(rd, ps, "low_price", b.low);
    FieldExact(rd, ps, "close_price", b.close);
    FieldExact(rd, ps, "turnover", b.amount);
    forall x ensures MemberStands(rd, ps, "volume", x) <==> S.Field(rd, ps, "volume") == Some(x) {
      FieldExact(rd, ps, "volume", x);
    }
    forall x | MemberStands(rd, ps, "volume", x) ensures Lookup(ps, "volume").Some? {
      FieldExact(rd, ps, "volume", x);
    }
    if S.Field(rd, ps, "volume").Some? {
      var x := S.Field(rd, ps, "volume").value;
      if x >= 0.0 { WholeScale(x, b.volume); } else { NotScaled(x, 1, b.volume); }
    }
    if S.Field(rd, ps, "open_price").Some? && S.Field(rd, ps, "high_price").Some?
       && S.Field(rd, ps, "low_price").Some? && S.Field(rd, ps, "close_price").Some? {
      PricesExact(S.Field(rd, ps, "open_price").value, S.Field(rd, ps, "high_price").value,
                  S.Field(rd, ps, "low_price").value, S.Field(rd, ps, "close_price").value);
    }
    PricesExact(b.open, b.high, b.low, b.close);
  }

  /** A success envelope: code 0, a positive time limit and at least one row. */
  lemma EnvelopeExact(payload: Json, limit: int, rows: seq<Json>)
    ensures S.Envelope(payload) == Some((limit, rows)) <==>
              && payload.Obj? && Lookup(payload.pairs, "code") == Some(Int(0))
              && exists ds :: && Lookup(payload.pairs, "data") == Some(Obj(ds))
                              && Lookup(ds, "timestamp") == Some(Int(limit)) && limit > 0
                              && Lookup(ds, "item") == Some(Arr(rows)) && rows != []
  {
    hide Lookup;
  }

  /** A document of free-stockdb: nothing, a list of objects, one row, or an object of rows. */
  ghost predicate RowsOf(payload: Json, daily: bool, rows: seq<Json>) {
    match payload
    case Null => rows == []
    case Arr(xs) => rows == xs && forall i | 0 <= i < |xs| :: xs[i].Obj?
    case Obj(ps) =>
      if ps == [] then rows == []
      else if S.Has(ps, S.Required(daily)) then rows == [payload]
      else
        && |rows| == |ps|
        && forall i | 0 <= i < |ps| :: rows[i] == ps[i].value && rows[i].Obj?
    case _ => false
  }

  lemma RowsExact(payload: Json, daily: bool, rows: seq<Json>)
    ensures S.ExtractRows(payload, daily) == Some(rows) <==> RowsOf(payload, daily, rows)
  {
    hide S.Has, S.Required;
    if payload.Obj? && payload.pairs != [] && !S.Has(payload.pairs, S.Required(daily)) && RowsOf(payload, daily, rows) {
      var ps := payload.pairs;
      assert rows == seq(|ps|, i requires 0 <= i < |ps| => ps[i].value);
      assert forall i | 0 <= i < |ps| :: rows[i] == ps[i].value;
    }
  }
}
