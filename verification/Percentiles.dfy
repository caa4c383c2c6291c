/** Latency percentiles and the metrics exchange (sidecars/xtp/runtime.py,
  stock_tracker/collector/xtp_sidecar.py); latencies are real numbers. */
module Percentiles {
  import opened Prelude
  import opened Envelopes
  import opened SidecarState
  import opened RuntimeInvariants

  ghost predicate Ascending(s: seq<real>) { forall i, j | 0 <= i <= j < |s| :: s[i] <= s[j] }

  function Insert(x: real, s: seq<real>): seq<real> {
    if s == [] || x <= s[0] then [x] + s else [s[0]] + Insert(x, s[1..])
  }

  /** `sorted(values)`. */
  function Sort(values: seq<real>): seq<real> {
    if values == [] then [] else Insert(values[0], Sort(values[1..]))
  }

  lemma {:induction false} InsertKeeps(x: real, s: seq<real>)
    ensures multiset(Insert(x, s)) == multiset(s) + multiset{x}
  {
    if s != [] && x > s[0] {
      InsertKeeps(x, s[1..]);
      assert s == [s[0]] + s[1..];
    }
  }

  lemma {:induction false} InsertAscending(x: real, s: seq<real>, low: real)
    requires Ascending(s) && low <= x && (s != [] ==> low <= s[0])
    ensures Ascending(Insert(x, s)) && low <= Insert(x, s)[0]
  {
    if s != [] && x > s[0] {
      InsertAscending(x, s[1..], s[0]);
    }
  }

  lemma {:induction false} SortAscending(values: seq<real>)
    ensures Ascending(Sort(values)) && multiset(Sort(values)) == multiset(values) && |Sort(values)| == |values|
  {
    if values != [] {
      SortAscending(values[1..]);
      var rest := Sort(values[1..]);
      InsertKeeps(values[0], rest);
      InsertAscending(values[0], rest, if rest != [] then MinReal(values[0], rest[0]) else values[0]);
      assert values == [values[0]] + values[1..];
    }
    assert |multiset(Sort(values))| == |multiset(values)|;
  }

  function Ceil(x: real): (r: int)
    ensures r as real - 1.0 < x <= r as real
  {
    if x == x.Floor as real then x.Floor else x.Floor + 1
  }

  function Mix(a: real, b: real, weight: real): real { a * (1.0 - weight) + b * weight }

  /** Linear interpolation between the neighbours of a fractional position. */
  function At(s: seq<real>, x: real): real
    requires 0.0 <= x <= (|s| - 1) as real
  {
    var lower, upper := x.Floor, Ceil(x);
    if lower == upper then s[lower] else Mix(s[lower], s[upper], x - lower as real)
  }

  function Position(top: real, p: real): real { top * p }

  lemma PositionMonotone(top: real, p: real, q: real)
    requires top >= 0.0 && 0.0 <= p <= q <= 1.0
    ensures 0.0 <= Position(top, p) <= Position(top, q) <= top
  {
    assert top * p >= 0.0;
    assert top * (q - p) >= 0.0 && top * (q - p) == top * q - top * p;
    assert top * (1.0 - q) >= 0.0 && top * (1.0 - q) == top - top * q;
  }

  /** `_percentile`. */
  function Percentile(values: seq<real>, p: real): real
    requires 0.0 <= p <= 1.0
  {
    if values == [] then 0.0
    else
      var top := (|values| - 1) as real;
      SortAscending(values);
      PositionMonotone(top, p, p);
      Round3(At(Sort(values), Position(top, p)))
  }

  lemma MixMonotone(a: real, b: real, v: real, w: real)
    requires a <= b && 0.0 <= v <= w <= 1.0
    ensures a <= Mix(a, b, v) <= Mix(a, b, w) <= b
  {
    PositionMonotone(b - a, v, w);
    assert Mix(a, b, v) == a + Position(b - a, v);
    assert Mix(a, b, w) == a + Position(b - a, w);
  }

  lemma AtBetween(s: seq<real>, x: real)
    requires Ascending(s) && 0.0 <= x <= (|s| - 1) as real
    ensures s[x.Floor] <= At(s, x) <= s[Ceil(x)]
  {
    var w := x - x.Floor as real;
    MixMonotone(s[x.Floor], s[Ceil(x)], w, w);
  }

  lemma AtMonotone(s: seq<real>, x: real, y: real)
    requires Ascending(s) && 0.0 <= x <= y <= (|s| - 1) as real
    ensures At(s, x) <= At(s, y)
  {
    AtBetween(s, x);
    AtBetween(s, y);
    if x.Floor < y.Floor {
      assert s[Ceil(x)] <= s[y.Floor];
    } else if Ceil(x) != x.Floor {
      assert Ceil(y) == Ceil(x);
      MixMonotone(s[x.Floor], s[Ceil(x)], x - x.Floor as real, y - y.Floor as real);
    }
  }

  /** Percentiles rise with `p` and stay between the rounded bounds of the sample. */
  lemma PercentileMonotone(values: seq<real>, p: real, q: real, lo: real, hi: real)
    requires values != [] && 0.0 <= p <= q <= 1.0
    requires forall v | v in values :: lo <= v <= hi
    ensures Round3(lo) <= Percentile(values, p) <= Percentile(values, q) <= Round3(hi)
  {
    var s, n := Sort(values), |values|;
    SortAscending(values);
    var x, y := Position((n - 1) as real, p), Position((n - 1) as real, q);
    PositionMonotone((n - 1) as real, p, q);
    AtMonotone(s, x, y);
    AtBetween(s, x);
    AtBetween(s, y);
    forall i | 0 <= i < |s| ensures lo <= s[i] <= hi {
      assert s[i] in multiset(s);
      assert s[i] in multiset(values);
      assert s[i] in values;
    }
    Round3Monotone(lo, At(s, x));
    Round3Monotone(At(s, x), At(s, y));
    Round3Monotone(At(s, y), hi);
  }

  lemma Cancel(k: real, n: real)
    requires 0.0 <= k <= n && n > 0.0
    ensures 0.0 <= k / n <= 1.0 && Position(n, k / n) == k
  {
  }

  /** At the ranks themselves a percentile is the rounded order statistic. */
  lemma PercentileAtRank(values: seq<real>, k: nat, p: real)
    requires k < |values| && |values| > 1 && p == k as real / (|values| - 1) as real
    ensures 0.0 <= p <= 1.0 && |Sort(values)| == |values|
    ensures Percentile(values, p) == Round3(Sort(values)[k])
  {
    SortAscending(values);
    Cancel(k as real, (|values| - 1) as real);
    var x := Position((|values| - 1) as real, p);
    assert x == k as real && At(Sort(values), x) == Sort(values)[k];
  }

  /** Between two neighbouring ranks the value moves on a straight line from the one order
    statistic to the other. */
  lemma BetweenRanks(s: seq<real>, k: nat, x: real)
    requires k + 1 < |s| && k as real <= x <= (k + 1) as real
    ensures At(s, x) - s[k] == (x - k as real) * (s[k + 1] - s[k])
  {
    if x.Floor == k {
      if Ceil(x) == k {
        assert x == k as real;
      } else {
        assert Ceil(x) == k + 1;
      }
    } else {
      assert x == (k + 1) as real;
    }
  }

  ghost function Line(a: real, b: real, weight: real): real { a + weight * (b - a) }

  lemma OnLine(s: seq<real>, k: nat, x: real)
    requires k + 1 < |s| && k as real <= x <= (k + 1) as real
    ensures At(s, x) == Line(s[k], s[k + 1], x - k as real)
  {
    BetweenRanks(s, k, x);
  }

  /** The percentile of a sample whose `p` falls between two ranks. */
  lemma PercentileBetween(values: seq<real>, k: nat, p: real)
    requires k + 1 < |values| && 0.0 <= p <= 1.0
    requires k as real <= p * (|values| - 1) as real <= (k + 1) as real
    ensures |Sort(values)| == |values|
    ensures var s := Sort(values);
            Percentile(values, p) == Round3(Line(s[k], s[k + 1], p * (|values| - 1) as real - k as real))
  {
    hide Position, At, Sort, Ascending, Round3, Line;
    SortAscending(values);
    PositionIs((|values| - 1) as real, p);
    OnLine(Sort(values), k, Position((|values| - 1) as real, p));
  }

  lemma PositionIs(top: real, p: real)
    ensures Position(top, p) == p * top
  {
  }

  // --------------------------------------------------------------------- metrics

  datatype Metrics = Metrics(
    sessionId: string,
    callbackCount: int,
    duplicateCount: int,
    callbackGapCount: int,
    providerGapCount: int,
    outOfOrderCount: int,
    reconnectCount: int,
    disconnectCount: int,
    droppedBufferCount: int,
    p50: real,
    p95: real,
    lastErrorCode: Option<string>,
    lastErrorAt: Option<int>)

  /** `metrics()`. */
  function MetricsOf(s: State): Metrics {
    Metrics(s.config.sessionId,
            s.callbackCount, s.duplicateCount, s.books.callbackGapCount, s.books.providerGapCount,
            s.books.outOfOrderCount, s.link.reconnectCount, s.link.disconnectCount, s.buffer.droppedBufferCount,
            Percentile(s.receipts.latencies, 0.50), Percentile(s.receipts.latencies, 0.95),
            s.link.lastErrorCode, s.link.lastErrorAt)
  }

  /** The checks of `XtpSidecarClient.metrics`; `now` is the client's clock. */
  predicate MetricsAccepted(m: Metrics, now: int) {
    && IdentifierText(m.sessionId)
    && m.callbackCount >= 0 && m.duplicateCount >= 0 && m.callbackGapCount >= 0 && m.providerGapCount >= 0
    && m.outOfOrderCount >= 0 && m.reconnectCount >= 0 && m.disconnectCount >= 0 && m.droppedBufferCount >= 0
    && m.p50 >= 0.0 && m.p95 >= 0.0
    && !(m.p95 < m.p50)
    && match m.lastErrorCode
       case None => m.lastErrorAt.None?
       case Some(code) => IdentifierText(code) && m.lastErrorAt.Some? && m.lastErrorAt.value - now <= MAX_FUTURE
  }

  /** The metrics of every runtime that any calls can lead to pass every client check, unless the
    client's clock is behind the last error. */
  lemma HonestMetricsAccepted(symbols: seq<string>, backend: string, maxEvents: int, sessionId: string,
                              calls: seq<Call>, now: int)
    requires Start(symbols, backend, maxEvents, sessionId).Ok? && IdentifierText(sessionId)
    ensures var s := DoAll(Start(symbols, backend, maxEvents, sessionId).value, calls);
            MetricsAccepted(MetricsOf(s), now)
            <==> s.link.lastErrorAt.None? || s.link.lastErrorAt.value - now <= MAX_FUTURE
  {
    hide MetricsAccepted, MetricsOf, Inv, DoAll, IdentifierText;
    var s0 := Start(symbols, backend, maxEvents, sessionId).value;
    StartInv(symbols, backend, maxEvents, sessionId);
    CallsKeepInv(s0, calls, []);
    ConfigFixed(s0, calls);
    BalancedMetricsAccepted(DoAll(s0, calls), [] + Accepted(s0, calls), now);
  }

  lemma BalancedMetricsAccepted(s: State, acc: seq<Event>, now: int)
    requires Inv(s, acc) && IdentifierText(s.config.sessionId)
    ensures MetricsAccepted(MetricsOf(s), now) <==>
            s.link.lastErrorAt.None? || s.link.lastErrorAt.value - now <= MAX_FUTURE
  {
    hide Percentile, Inv, IdentifierText, ErrorCodeOk;
    ReportsBalanced(s, acc);
    LatenciesInOrder(s.receipts.latencies);
    if s.link.lastErrorCode.Some? {
      CodeIsIdentifier(s.link.lastErrorCode.value);
    }
  }

  lemma ReportsBalanced(s: State, acc: seq<Event>)
    requires Inv(s, acc)
    ensures Reported(s.receipts, s.link)
  {
  }

  lemma CodeIsIdentifier(code: string)
    requires ErrorCodeOk(code)
    ensures IdentifierText(code)
  {
  }

  lemma LatenciesInOrder(l: seq<real>)
    requires forall i | 0 <= i < |l| :: l[i] >= 0.0
    ensures 0.0 <= Percentile(l, 0.50) <= Percentile(l, 0.95)
  {
    if l != [] {
      var hi := Bound(l);
      assert Round3(0.0) == 0.0;
      hide Percentile, Round3;
      PercentileMonotone(l, 0.50, 0.95, 0.0, hi);
    }
  }

  lemma {:induction false} Bound(l: seq<real>) returns (hi: real)
    ensures forall v | v in l :: v <= hi
  {
    if l == [] {
      hi := 0.0;
    } else {
      var h := Bound(l[1..]);
      hi := MaxReal(h, l[0]);
      assert l == [l[0]] + l[1..];
    }
  }
}
