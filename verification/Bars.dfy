/** Daily and minute bars, and how the parsers read JSON cells (stock_tracker/core/types.py,
  stock_tracker/collector/). Prices are real numbers; a timestamp counts from day 0. */
module Bars {
  import opened Prelude
  import opened Numerals
  import opened CanonicalJson

  datatype Bar = Bar(
    timestamp: int, open: real, high: real, low: real, close: real, volume: int, amount: real, turnover: real)

  predicate Consistent(b: Bar) {
    && 0.0 < b.low <= b.open <= b.high && b.low <= b.close <= b.high
    && b.volume >= 0 && b.amount >= 0.0 && b.turnover >= 0.0
  }

  predicate Ascending(bars: seq<Bar>) {
    forall i, j | 0 <= i < j < |bars| :: bars[i].timestamp < bars[j].timestamp
  }

  /** What Python makes of a text: `float(text)` when that is a finite number, and
    `strptime(text, "%Y-%m-%d")` when that is a date; the value of a decimal digit that is not an
    ASCII one; and the magnitude from which no float is left, so that `float(n)` raises
    OverflowError and a product is infinite. */
  datatype Reading = Reading(
    number: string -> Option<real>, day: string -> Option<int>, digit: char -> Option<Digit>, limit: real)

  predicate HasFloat(rd: Reading, x: real) { -rd.limit < x < rd.limit }

  /** `pairs.get(key)`. */
  function Lookup(pairs: seq<Member>, key: string): (r: Option<Json>)
    ensures r.None? <==> forall i | 0 <= i < |pairs| :: pairs[i].key != key
    ensures r.Some? ==> exists i | 0 <= i < |pairs| :: pairs[i] == Member(key, r.value)
  {
    if pairs == [] then None
    else if pairs[0].key == key then
      assert pairs[0] == Member(key, pairs[0].value);
      Some(pairs[0].value)
    else
      var r := Lookup(pairs[1..], key);
      assert r.Some? ==> exists i | 0 <= i < |pairs[1..]| ::
                           pairs[1..][i] == Member(key, r.value) && pairs[i + 1] == pairs[1..][i];
      assert forall i | 0 < i < |pairs| :: pairs[i] == pairs[1..][i - 1];
      r
  }

  /** A number of a JSON document; a boolean is none. */
  function JsonNumber(rd: Reading, v: Json): Option<real> {
    match v
    case Int(n) => if HasFloat(rd, n as real) then Some(n as real) else None
    case Float(text) => rd.number(text)
    case _ => None
  }

  /** The price tests every parser makes. */
  predicate PricesOk(open: real, high: real, low: real, close: real) {
    && open > 0.0 && high > 0.0 && low > 0.0 && close > 0.0
    && !(low > MinReal(MinReal(open, close), high) || high < MaxReal(MaxReal(open, close), low))
  }
}
