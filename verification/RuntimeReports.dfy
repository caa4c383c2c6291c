/** What the runtime reports of its calls: the latency samples, the connection, and the metrics
  (sidecars/xtp/runtime.py). */
module RuntimeReports {
  import opened Prelude
  import opened Envelopes
  import opened SidecarState
  import opened RuntimeInvariants
  import opened Percentiles
  import opened SidecarClient
  import opened EventDelivery

  // --------------------------------------------------------------------- receipts

  ghost predicate HasTime(e: Event) { e.exchangeTimestamp.Some? || e.providerTimestamp.Some? }

  /** The events of a history that carry a source time. */
  ghost function Timed(acc: seq<Event>): (es: seq<Event>)
    ensures forall i | 0 <= i < |es| :: HasTime(es[i])
  {
    if acc == [] then []
    else Timed(acc[..|acc| - 1]) + if HasTime(acc[|acc| - 1]) then [acc[|acc| - 1]] else []
  }

  /** A sample is the time from the exchange, or else from the provider, to receipt, in milliseconds
    (an instant counts microseconds), and zero when that time lies after receipt. */
  ghost predicate SampleOf(x: real, e: Event)
    requires HasTime(e)
  {
    var t: int := if e.exchangeTimestamp.Some? then e.exchangeTimestamp.value else e.providerTimestamp.value;
    if t <= e.receivedAt then 1000.0 * x == (e.receivedAt - t) as real else x == 0.0
  }

  /** The samples are those of the last 4096 events with a source time, in order. */
  ghost predicate SamplesFollow(latencies: seq<real>, acc: seq<Event>) {
    var es := Timed(acc);
    && |latencies| == (if |es| <= 4096 then |es| else 4096)
    && forall i | 0 <= i < |latencies| :: SampleOf(latencies[i], es[|es| - |latencies| + i])
  }

  ghost predicate ReceiptsFollow(s: State, acc: seq<Event>) {
    && SamplesFollow(s.receipts.latencies, acc)
    && s.receipts.lastEventAt == if acc == [] then None else Some(acc[|acc| - 1].receivedAt)
  }

  lemma TimedSnoc(acc: seq<Event>, e: Event)
    ensures Timed(acc + [e]) == Timed(acc) + if HasTime(e) then [e] else []
  {
    assert (acc + [e])[..|acc|] == acc;
  }

  lemma LatencyIsSample(e: Event)
    requires HasTime(e)
    ensures SampleOf(Latency(e), e)
  {
  }

  lemma SampleAdded(latencies: seq<real>, es: seq<Event>, x: real, e: Event)
    requires forall i | 0 <= i < |es| :: HasTime(es[i])
    requires |latencies| == (if |es| <= 4096 then |es| else 4096)
    requires forall i | 0 <= i < |latencies| :: SampleOf(latencies[i], es[|es| - |latencies| + i])
    requires HasTime(e) && SampleOf(x, e)
    ensures var all, more := es + [e], Bounded(latencies, x);
            && |more| == (if |all| <= 4096 then |all| else 4096)
            && forall i | 0 <= i < |more| :: SampleOf(more[i], all[|all| - |more| + i])
  {
    hide SampleOf;
    var all, more := es + [e], Bounded(latencies, x);
    forall i | 0 <= i < |more| ensures SampleOf(more[i], all[|all| - |more| + i]) {
      if i == |more| - 1 {
        assert more[i] == x && all[|all| - |more| + i] == e;
      } else {
        var j := i + |latencies| - (|more| - 1);
        assert more[i] == latencies[j] && all[|all| - |more| + i] == es[|es| - |latencies| + j];
      }
    }
  }

  lemma RecordFollows(s: State, t: State, acc: seq<Event>, e: Event)
    requires ReceiptsFollow(s, acc) && t.receipts == Record(s.receipts, e)
    ensures ReceiptsFollow(t, acc + [e])
  {
    hide SampleOf, Latency, Timed, Bounded;
    TimedSnoc(acc, e);
    if HasTime(e) {
      LatencyIsSample(e);
      SampleAdded(s.receipts.latencies, Timed(acc), Latency(e), e);
    } else {
      assert Timed(acc) + [] == Timed(acc);
    }
  }

  lemma CallReceipts(s: State, c: Call, acc: seq<Event>)
    requires ReceiptsFollow(s, acc)
    ensures ReceiptsFollow(Do(s, c), acc + Added(s, c))
  {
    hide ReceiptsFollow;
    if c.CallAppend? && Append(s, c.e, c.now).1 == Appended {
      AppendedReceipts(s, c.e, c.now);
      RecordFollows(s, Do(s, c), acc, c.e);
    } else {
      OtherReceipts(s, c);
      SameReceipts(s, Do(s, c), acc);
      assert acc + [] == acc;
    }
  }

  lemma AppendedReceipts(s: State, e: Event, now: int)
    requires Append(s, e, now).1 == Appended
    ensures Append(s, e, now).0.receipts == Record(s.receipts, e)
  {
  }

  lemma OtherReceipts(s: State, c: Call)
    requires Added(s, c) == []
    ensures Do(s, c).receipts == s.receipts
  {
  }

  lemma SameReceipts(s: State, t: State, acc: seq<Event>)
    requires ReceiptsFollow(s, acc) && t.receipts == s.receipts
    ensures ReceiptsFollow(t, acc)
  {
  }

  /** After any calls the runtime holds the latency samples of the last 4096 accepted events with a
    source time, in order, and the receipt of the last accepted event. */
  lemma ReceiptsExact(symbols: seq<string>, backend: string, maxEvents: int, sessionId: string, calls: seq<Call>)
    requires Start(symbols, backend, maxEvents, sessionId).Ok?
    ensures var s0 := Start(symbols, backend, maxEvents, sessionId).value;
            ReceiptsFollow(DoAll(s0, calls), Accepted(s0, calls))
  {
    var s0 := Start(symbols, backend, maxEvents, sessionId).value;
    forall t, c, h | ReceiptsFollow(t, h) ensures ReceiptsFollow(Do(t, c), h + Added(t, c)) {
      CallReceipts(t, c, h);
    }
    RunInduction((t, h) => ReceiptsFollow(t, h), s0, calls, []);
    assert [] + Accepted(s0, calls) == Accepted(s0, calls);
  }

  // ------------------------------------------------------------------- the connection

  /** A feed mode that `mark_connected` knows. */
  ghost predicate KnownMode(mode: string) { mode == "SIMULATOR" || mode == "LEVEL1" || mode == "LEVEL2" }

  /** A connect call that is not refused. */
  ghost predicate Connects(c: Call) { c.CallConnect? && (c.mode.Some? ==> KnownMode(c.mode.value)) }

  /** The mode the last accepted connect call set, if any did. */
  ghost function ModeAfter(mode: string, calls: seq<Call>): string {
    if calls == [] then mode
    else
      var c := calls[|calls| - 1];
      if Connects(c) && c.mode.Some? then c.mode.value else ModeAfter(mode, calls[..|calls| - 1])
  }

  /** The last call that changed the connection, if any did. */
  ghost function LastChange(calls: seq<Call>): Option<Call> {
    if calls == [] then None
    else
      var c := calls[|calls| - 1];
      if Connects(c) || c.CallDisconnect? || c.CallReconnect? then Some(c) else LastChange(calls[..|calls| - 1])
  }

  ghost function LastConnect(calls: seq<Call>): Option<Call> {
    if calls == [] then None
    else
      var c := calls[|calls| - 1];
      if Connects(c) then Some(c) else LastConnect(calls[..|calls| - 1])
  }

  ghost function LastDisconnect(calls: seq<Call>): Option<Call> {
    if calls == [] then None
    else
      var c := calls[|calls| - 1];
      if c.CallDisconnect? then Some(c) else LastDisconnect(calls[..|calls| - 1])
  }

  datatype Kind = Reconnects | Disconnects

  ghost function HowMany(calls: seq<Call>, kind: Kind): nat {
    if calls == [] then 0
    else
      var c := calls[|calls| - 1];
      HowMany(calls[..|calls| - 1], kind)
      + if (if kind == Reconnects then c.CallReconnect? else c.CallDisconnect?) then 1 else 0
  }

  /** An error code that is recorded as it is: up to 128 capitals, digits and `._:-`. */
  ghost predicate PlainCode(code: string) {
    && 1 <= |code| <= 128
    && forall i | 0 <= i < |code| ::
         || ('A' <= code[i] && code[i] <= 'Z') || ('0' <= code[i] && code[i] <= '9')
         || code[i] == '.' || code[i] == '_' || code[i] == ':' || code[i] == '-'
  }

  /** The link after a start in `mode` and these calls. */
  ghost predicate LinkFollows(l: Link, mode: string, calls: seq<Call>) {
    && l.feedMode == ModeAfter(mode, calls)
    && l.connection == (match LastChange(calls)
                        case None => Starting
                        case Some(CallConnect(_, _)) => Connected
                        case Some(CallDisconnect(_, _)) => Disconnected
                        case Some(_) => Reconnecting)
    && l.connectedAt == (match LastConnect(calls) case Some(CallConnect(_, now)) => Some(now) case _ => None)
    && l.reconnectCount == HowMany(calls, Reconnects) && l.disconnectCount == HowMany(calls, Disconnects)
    && match LastDisconnect(calls)
       case Some(CallDisconnect(code, now)) =>
         && l.lastErrorAt == Some(now)
         && l.lastErrorCode == Some(if PlainCode(code) then code else "DISCONNECTED")
       case _ => l.lastErrorAt == None && l.lastErrorCode == None
  }

  lemma LinkSnoc(s: State, mode: string, calls: seq<Call>, c: Call)
    requires LinkFollows(s.link, mode, calls)
    ensures LinkFollows(Do(s, c).link, mode, calls + [c])
  {
    hide Append;
    assert (calls + [c])[..|calls|] == calls;
    if c.CallAppend? {
      AppendLink(s, c.e, c.now);
    }
  }

  lemma AppendLink(s: State, e: Event, now: int)
    ensures Append(s, e, now).0.link == s.link
  {
  }

  lemma {:induction false} DoAllSnoc(s: State, calls: seq<Call>, c: Call)
    ensures DoAll(s, calls + [c]) == Do(DoAll(s, calls), c)
    decreases |calls|
  {
    hide Do;
    if calls == [] {
      assert [] + [c] == [c] && [c][1..] == [];
      assert DoAll(Do(s, c), []) == Do(s, c);
    } else {
      DoAllSnoc(Do(s, calls[0]), calls[1..], c);
      assert (calls + [c])[0] == calls[0] && (calls + [c])[1..] == calls[1..] + [c];
    }
  }

  lemma {:induction false} LinkOfCalls(s: State, mode: string, calls: seq<Call>)
    requires LinkFollows(s.link, mode, [])
    ensures LinkFollows(DoAll(s, calls).link, mode, calls)
  {
    if calls != [] {
      hide LinkFollows, Do;
      var n := |calls| - 1;
      LinkOfCalls(s, mode, calls[..n]);
      LinkSnoc(DoAll(s, calls[..n]), mode, calls[..n], calls[n]);
      DoAllSnoc(s, calls[..n], calls[n]);
      assert calls[..n] + [calls[n]] == calls;
    }
  }

  /** After any calls: the mode is that of the last accepted connect call, the state that of the last
    change, and the error that of the last disconnect. */
  lemma LinkExact(symbols: seq<string>, backend: string, maxEvents: int, sessionId: string, calls: seq<Call>)
    requires Start(symbols, backend, maxEvents, sessionId).Ok?
    ensures var s0 := Start(symbols, backend, maxEvents, sessionId).value;
            LinkFollows(DoAll(s0, calls).link, if backend == "xtp" then "LEVEL1" else "SIMULATOR", calls)
  {
    LinkOfCalls(Start(symbols, backend, maxEvents, sessionId).value,
                if backend == "xtp" then "LEVEL1" else "SIMULATOR", calls);
  }

  /** A start succeeds exactly for 1 to 20 different symbols, a known backend and room for 100
    events; nothing has happened then. */
  lemma StartExact(symbols: seq<string>, backend: string, maxEvents: int, sessionId: string)
    ensures Start(symbols, backend, maxEvents, sessionId).Ok? <==>
              && 1 <= |symbols| <= 20 && (backend == "simulator" || backend == "xtp") && maxEvents >= 100
              && (forall i | 0 <= i < |symbols| :: SymbolText(symbols[i]))
              && forall i, j | 0 <= i < j < |symbols| :: symbols[i] != symbols[j]
    ensures Start(symbols, backend, maxEvents, sessionId).Ok? ==>
              var s := Start(symbols, backend, maxEvents, sessionId).value;
              && s.config.symbols == symbols && s.config.maxEvents == maxEvents && s.config.sessionId == sessionId
              && s.allocator.callbackSeq == 0 && s.allocator.providerSeqs == map[]
              && s.callbackCount == 0 && s.buffer.events == []
  {
    hide SymbolText;
  }

  // ------------------------------------------------------------------- what is taken

  /** An append is refused exactly when the event lies in the future, or is of another session,
    another feed mode or a symbol that is not subscribed; a duplicate exactly when its id is in
    the buffer. */
  lemma AppendOutcome(s: State, e: Event, now: int)
    ensures var r := Append(s, e, now).1;
            && (r.Refused? <==>
                  || !TimesOk(e, now) || e.sessionId != s.config.sessionId
                  || e.feedMode != s.link.feedMode || e.symbol !in s.config.symbols)
            && (r == Duplicate <==> !r.Refused? && e.eventId in s.buffer.eventIds)
  {
    hide TimesOk, Accept;
  }

  /** What a call adds to the history was sent in the session, for a subscribed symbol, and in the
    mode of the last accepted connect call before it. */
  lemma AddedFits(symbols: seq<string>, backend: string, maxEvents: int, sessionId: string, calls: seq<Call>, c: Call)
    requires Start(symbols, backend, maxEvents, sessionId).Ok?
    ensures var s := DoAll(Start(symbols, backend, maxEvents, sessionId).value, calls);
            forall e | e in Added(s, c) ::
              && e.sessionId == sessionId && e.symbol in symbols
              && e.feedMode == ModeAfter(if backend == "xtp" then "LEVEL1" else "SIMULATOR", calls)
  {
    var s0 := Start(symbols, backend, maxEvents, sessionId).value;
    LinkExact(symbols, backend, maxEvents, sessionId, calls);
    ConfigFixed(s0, calls);
    if c.CallAppend? {
      hide Append, DoAll, ModeAfter;
      AppendOutcome(DoAll(s0, calls), c.e, c.now);
    }
  }

  // ------------------------------------------------------------------- what is read

  /** The positions of a buffer that a page takes: the first ones above the cursor. */
  ghost predicate Selects(at: seq<nat>, es: seq<Event>, after: nat, limit: nat) {
    && |at| <= limit
    && (forall k | 0 <= k < |at| :: at[k] < |es| && es[at[k]].callbackSeq > after)
    && (forall j, k | 0 <= j < k < |at| :: at[j] < at[k])
    && forall i | 0 <= i < |es| && es[i].callbackSeq > after :: i in at || (|at| == limit > 0 && at[|at| - 1] < i)
  }

  /** The positions from `from` on that hold an event above the cursor. */
  ghost function Positions(es: seq<Event>, after: nat, from: nat): seq<nat>
    requires from <= |es|
    decreases |es| - from
  {
    if from == |es| then []
    else (if es[from].callbackSeq > after then [from] else []) + Positions(es, after, from + 1)
  }

  ghost predicate Rising(at: seq<nat>, from: nat, to: nat) {
    && (forall k | 0 <= k < |at| :: from <= at[k] < to)
    && forall j, k | 0 <= j < k < |at| :: at[j] < at[k]
  }

  lemma RisingCons(from: nat, at: seq<nat>, to: nat)
    requires Rising(at, from + 1, to) && from < to
    ensures Rising([from] + at, from, to)
  {
  }

  lemma {:induction false} PositionsRise(es: seq<Event>, after: nat, from: nat)
    requires from <= |es|
    ensures Rising(Positions(es, after, from), from, |es|)
    decreases |es| - from
  {
    if from < |es| {
      var rest := Positions(es, after, from + 1);
      PositionsRise(es, after, from + 1);
      RisingCons(from, rest, |es|);
      assert [] + rest == rest;
    }
  }

  lemma {:induction false} PositionsAll(es: seq<Event>, after: nat, from: nat, i: nat)
    requires from <= i < |es|
    ensures i in Positions(es, after, from) <==> es[i].callbackSeq > after
    decreases |es| - from
  {
    if from < i {
      PositionsAll(es, after, from + 1, i);
    } else {
      PositionsRise(es, after, from + 1);
    }
  }

  /** The events at the given positions. */
  ghost function EventsAt(es: seq<Event>, at: seq<nat>): (page: seq<Event>)
    requires forall k | 0 <= k < |at| :: at[k] < |es|
    ensures |page| == |at| && forall k | 0 <= k < |at| :: page[k] == es[at[k]]
  {
    seq(|at|, k requires 0 <= k < |at| => es[at[k]])
  }

  lemma {:induction false} PositionsHold(es: seq<Event>, after: nat, from: nat)
    requires from <= |es|
    ensures forall k | 0 <= k < |Positions(es, after, from)| :: Positions(es, after, from)[k] < |es|
    ensures After(es[from..], after) == EventsAt(es, Positions(es, after, from))
    decreases |es| - from
  {
    PositionsRise(es, after, from);
    if from < |es| {
      PositionsRise(es, after, from + 1);
      PositionsHold(es, after, from + 1);
      assert es[from..][1..] == es[from + 1..] && es[from..][0] == es[from];
    }
  }

  /** The positions of the events above the cursor: all of them, in buffer order. */
  lemma AllAbove(es: seq<Event>, after: nat) returns (all: seq<nat>)
    ensures Rising(all, 0, |es|)
    ensures forall i | 0 <= i < |es| :: i in all <==> es[i].callbackSeq > after
    ensures After(es, after) == EventsAt(es, all)
  {
    hide After;
    all := Positions(es, after, 0);
    PositionsRise(es, after, 0);
    PositionsHold(es, after, 0);
    assert es[0..] == es;
    forall i | 0 <= i < |es| ensures i in all <==> es[i].callbackSeq > after {
      PositionsAll(es, after, 0, i);
    }
  }

  lemma TakenAt(es: seq<Event>, all: seq<nat>, at: seq<nat>, limit: nat)
    requires Rising(all, 0, |es|) && at == if |all| <= limit then all else all[..limit]
    ensures Rising(at, 0, |es|) && Take(EventsAt(es, all), limit) == EventsAt(es, at)
  {
  }

  lemma SelectsFirst(es: seq<Event>, after: nat, all: seq<nat>, at: seq<nat>, limit: nat)
    requires Rising(at, 0, |es|) && |at| <= limit && limit >= 1
    requires forall i | 0 <= i < |es| :: i in all <==> es[i].callbackSeq > after
    requires forall i | i in all :: i in at || (|at| == limit && at[|at| - 1] < i)
    requires forall i | i in at :: i in all
    ensures Selects(at, es, after, limit)
  {
    forall k | 0 <= k < |at| ensures at[k] < |es| && es[at[k]].callbackSeq > after {
      assert at[k] in at;
    }
  }

  lemma FirstAbove(es: seq<Event>, after: nat, limit: nat) returns (at: seq<nat>)
    requires limit >= 1
    ensures Selects(at, es, after, limit)
    ensures Take(After(es, after), limit) == EventsAt(es, at)
    ensures After(es, after) != [] <==> exists i | 0 <= i < |es| :: es[i].callbackSeq > after
  {
    hide After, Selects, Take, Rising;
    var all := AllAbove(es, after);
    at := if |all| <= limit then all else all[..limit];
    TakenAt(es, all, at, limit);
    FirstOnes(all, at, |es|, limit);
    SelectsFirst(es, after, all, at, limit);
    SomeAbove(es, after, all);
  }

  lemma SomeAbove(es: seq<Event>, after: nat, all: seq<nat>)
    requires Rising(all, 0, |es|)
    requires forall i | 0 <= i < |es| :: i in all <==> es[i].callbackSeq > after
    ensures all != [] <==> exists i | 0 <= i < |es| :: es[i].callbackSeq > after
  {
    assert all != [] ==> all[0] in all;
  }

  lemma FirstOnes(all: seq<nat>, at: seq<nat>, to: nat, limit: nat)
    requires Rising(all, 0, to) && limit >= 1 && at == if |all| <= limit then all else all[..limit]
    ensures Rising(at, 0, to) && |at| <= limit
    ensures forall i | i in all :: i in at || (|at| == limit && at[|at| - 1] < i)
    ensures forall i | i in at :: i in all
  {
    forall i | i in all ensures i in at || (|at| == limit && at[|at| - 1] < i) {
      var k :| 0 <= k < |all| && all[k] == i;
      if k < |at| { assert at[k] == i; }
    }
  }

  /** A read is refused exactly for a negative cursor or a limit outside 1 to 500; otherwise the page
    holds the first `limit` buffered events above the cursor in buffer order, says whether the
    oldest one leaves a hole above the cursor, moves to its last event, and says whether any
    buffered event lies above that. It does so whatever the order of the buffer. */
  lemma ReadExact(s: State, after: int, limit: int) returns (at: seq<nat>)
    ensures EventsAfter(s, after, limit).Ok? <==> after >= 0 && 1 <= limit <= 500
    ensures EventsAfter(s, after, limit).Ok? ==>
              var p, es := EventsAfter(s, after, limit).value, s.buffer.events;
              && Selects(at, es, after, limit) && p.events == EventsAt(es, at)
              && p.after == after && p.sessionId == s.config.sessionId
              && p.oldestCursor == (if es == [] then 0 else es[0].callbackSeq)
              && (p.cursorLost <==> es != [] && es[0].callbackSeq > after + 1)
              && p.nextCursor == (if at == [] then after else es[at[|at| - 1]].callbackSeq)
              && (p.hasMore <==> exists i | 0 <= i < |es| :: es[i].callbackSeq > p.nextCursor)
  {
    at := [];
    if after >= 0 && 1 <= limit <= 500 {
      hide After, Take, Selects;
      at := FirstAbove(s.buffer.events, after, limit);
      var more := FirstAbove(s.buffer.events, PageAfter(s, after, limit).nextCursor, 1);
    }
  }

  /** A client that asks for the session, all its symbols and a feed mode is served after any calls:
    it accepts a page of an ordered history exactly when no event was lost, its clock is not behind
    the events, and they are of that mode. */
  lemma SubscriberServed(
    lib: Lib, symbols: seq<string>, backend: string, maxEvents: int, sessionId: string, calls: seq<Call>,
    mode: string, after: nat, limit: nat, maxPage: nat, maxSymbols: nat, now: int)
    requires LibOk(lib) && IdentifierText(sessionId) && Start(symbols, backend, maxEvents, sessionId).Ok?
    requires var acc := Accepted(Start(symbols, backend, maxEvents, sessionId).value, calls);
             Ordered(acc) && AllBuilt(lib, acc)
    requires mode == "SIMULATOR" || mode == "LEVEL1" || mode == "LEVEL2"
    requires 1 <= limit <= maxPage && |symbols| <= maxSymbols
    ensures var s := DoAll(Start(symbols, backend, maxEvents, sessionId).value, calls);
            var p := PageAfter(s, after, limit);
            var x := Expectation(Some(sessionId), Some(mode), Some(symbols), maxPage, maxSymbols);
            Accepts(lib, ToWire(lib, p), after, limit, x, now)
            <==> !p.cursorLost && AllFresh(p.events, now) && forall e | e in p.events :: e.feedMode == mode
  {
    hide Start, DoAll, Accepted, PageAfter, Accepts, AllFresh, SymbolText, IdentifierText, Kept, Ordered, LibOk,
         AllBuilt, Built;
    var s0 := Start(symbols, backend, maxEvents, sessionId).value;
    var s, acc := DoAll(s0, calls), Accepted(s0, calls);
    var x := Expectation(Some(sessionId), Some(mode), Some(symbols), maxPage, maxSymbols);
    var p := PageAfter(s, after, limit);
    HistoryKept(symbols, backend, maxEvents, sessionId, calls);
    StartExact(symbols, backend, maxEvents, sessionId);
    HonestPageAccepted(lib, s, acc, after, limit, x, now);
    if !p.cursorLost {
      var k, m := PageContinues(s, acc, after, limit);
      assert forall i | 0 <= i < m - k :: acc[k..m][i] in acc;
    }
  }

  lemma HistoryKept(symbols: seq<string>, backend: string, maxEvents: int, sessionId: string, calls: seq<Call>)
    requires Start(symbols, backend, maxEvents, sessionId).Ok?
    ensures var s0 := Start(symbols, backend, maxEvents, sessionId).value;
            var s, acc := DoAll(s0, calls), Accepted(s0, calls);
            && Holds(s, acc) && s.config == s0.config
            && forall e | e in acc :: e.symbol in symbols && e.sessionId == sessionId
  {
    var s0 := Start(symbols, backend, maxEvents, sessionId).value;
    StartInv(symbols, backend, maxEvents, sessionId);
    CallsKeepInv(s0, calls, []);
    assert [] + Accepted(s0, calls) == Accepted(s0, calls);
    ConfigFixed(s0, calls);
  }

  // ------------------------------------------------------------------- the metrics

  /** How many appends had an outcome, `taken` standing for every one that was not refused. */
  ghost function Taken(s: State, calls: seq<Call>, duplicates: bool): nat
    decreases |calls|
  {
    if calls == [] then 0
    else
      var c := calls[0];
      (if c.CallAppend? && (if duplicates then Append(s, c.e, c.now).1 == Duplicate
                            else !Append(s, c.e, c.now).1.Refused?) then 1 else 0)
      + Taken(Do(s, c), calls[1..], duplicates)
  }

  lemma DoCounts(s: State, c: Call)
    ensures var t := Do(s, c);
            && t.callbackCount - s.callbackCount
               == (if c.CallAppend? && !Append(s, c.e, c.now).1.Refused? then 1 else 0)
            && t.duplicateCount - s.duplicateCount
               == if c.CallAppend? && Append(s, c.e, c.now).1 == Duplicate then 1 else 0
  {
    hide Refusal;
  }

  lemma {:induction false} CountsOfCalls(s: State, calls: seq<Call>)
    ensures DoAll(s, calls).callbackCount == s.callbackCount + Taken(s, calls, false)
    ensures DoAll(s, calls).duplicateCount == s.duplicateCount + Taken(s, calls, true)
    decreases |calls|
  {
    if calls != [] {
      hide Do, Append;
      DoCounts(s, calls[0]);
      CountsOfCalls(Do(s, calls[0]), calls[1..]);
    }
  }

  /** Every metric after any calls, by what happened. */
  lemma MetricsExact(symbols: seq<string>, backend: string, maxEvents: int, sessionId: string, calls: seq<Call>)
    requires Start(symbols, backend, maxEvents, sessionId).Ok?
    ensures var s0 := Start(symbols, backend, maxEvents, sessionId).value;
            var s, acc := DoAll(s0, calls), Accepted(s0, calls);
            var m := MetricsOf(s);
            && m.sessionId == sessionId
            && m.callbackCount == Taken(s0, calls, false) && m.duplicateCount == Taken(s0, calls, true)
            && m.callbackCount == m.duplicateCount + |acc|
            && m.callbackGapCount == Skipped(CallbackNumbers(acc))
            && m.providerGapCount == SkippedPerSymbol(acc, symbols)
            && m.outOfOrderCount == Regressions(CallbackNumbers(acc)) + RegressionsPerSymbol(acc, symbols)
            && m.reconnectCount == HowMany(calls, Reconnects) && m.disconnectCount == HowMany(calls, Disconnects)
            && m.droppedBufferCount == (if |acc| <= maxEvents then 0 else |acc| - maxEvents)
            && m.p50 == Percentile(s.receipts.latencies, 0.5) && m.p95 == Percentile(s.receipts.latencies, 0.95)
            && (m.lastErrorCode.Some? <==> HowMany(calls, Disconnects) > 0)
  {
    hide Percentile, Taken, DoAll, Skipped, Regressions, SkippedPerSymbol, RegressionsPerSymbol, CallbackNumbers,
      LinkFollows, Accepted, HowMany;
    var s0 := Start(symbols, backend, maxEvents, sessionId).value;
    CountsOfCalls(s0, calls);
    BooksBalance(symbols, backend, maxEvents, sessionId, calls);
    StartInv(symbols, backend, maxEvents, sessionId);
    CallsKeepInv(s0, calls, []);
    assert [] + Accepted(s0, calls) == Accepted(s0, calls);
    DroppedExact(DoAll(s0, calls), Accepted(s0, calls));
    LinkExact(symbols, backend, maxEvents, sessionId, calls);
    LinkCounts(DoAll(s0, calls).link, if backend == "xtp" then "LEVEL1" else "SIMULATOR", calls);
    ConfigFixed(s0, calls);
  }

  lemma DroppedExact(s: State, acc: seq<Event>)
    requires Inv(s, acc)
    ensures s.buffer.droppedBufferCount
            == if |acc| <= s.config.maxEvents then 0 else |acc| - s.config.maxEvents
  {
  }

  lemma LinkCounts(l: Link, mode: string, calls: seq<Call>)
    requires LinkFollows(l, mode, calls)
    ensures l.reconnectCount == HowMany(calls, Reconnects) && l.disconnectCount == HowMany(calls, Disconnects)
    ensures l.lastErrorCode.Some? <==> HowMany(calls, Disconnects) > 0
  {
    DisconnectSeen(calls);
  }

  lemma {:induction false} DisconnectSeen(calls: seq<Call>)
    ensures LastDisconnect(calls).Some? <==> HowMany(calls, Disconnects) > 0
    ensures LastDisconnect(calls).Some? ==> LastDisconnect(calls).value.CallDisconnect?
  {
    if calls != [] {
      DisconnectSeen(calls[..|calls| - 1]);
    }
  }
}
