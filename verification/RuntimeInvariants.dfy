/** What holds of the sidecar's log after any calls whatever, racing producers included.
  `acc` is the history: every event that was ever appended, in order. */
module RuntimeInvariants {
  import opened Prelude
  import opened Envelopes
  import opened SidecarState

  // -------------------------------------------------- what a number sequence amounts to

  function MaxOf(ns: seq<nat>): nat {
    if ns == [] then 0 else Max(MaxOf(ns[..|ns| - 1]), ns[|ns| - 1])
  }

  /** How many numbers after the first exceeded every number before them. */
  function Raises(ns: seq<nat>): nat {
    if |ns| <= 1 then 0
    else Raises(ns[..|ns| - 1]) + if ns[|ns| - 1] > MaxOf(ns[..|ns| - 1]) then 1 else 0
  }

  /** How many numbers after the first did not. */
  function Regressions(ns: seq<nat>): nat {
    if |ns| <= 1 then 0
    else Regressions(ns[..|ns| - 1]) + if ns[|ns| - 1] > MaxOf(ns[..|ns| - 1]) then 0 else 1
  }

  /** The numbers skipped: the span of the sequence less the steps that raised it. */
  function Skipped(ns: seq<nat>): int {
    if ns == [] then 0 else MaxOf(ns) - ns[0] - Raises(ns)
  }

  function CallbackNumbers(acc: seq<Event>): seq<nat> {
    if acc == [] then [] else CallbackNumbers(acc[..|acc| - 1]) + [acc[|acc| - 1].callbackSeq]
  }

  function ProviderNumbers(acc: seq<Event>, symbol: string): seq<nat> {
    if acc == [] then []
    else
      var e := acc[|acc| - 1];
      ProviderNumbers(acc[..|acc| - 1], symbol)
      + if e.symbol == symbol && e.providerSeq.Some? then [e.providerSeq.value] else []
  }

  function SkippedPerSymbol(acc: seq<Event>, symbols: seq<string>): int {
    if symbols == [] then 0
    else Skipped(ProviderNumbers(acc, symbols[0])) + SkippedPerSymbol(acc, symbols[1..])
  }

  function RegressionsPerSymbol(acc: seq<Event>, symbols: seq<string>): nat {
    if symbols == [] then 0
    else Regressions(ProviderNumbers(acc, symbols[0])) + RegressionsPerSymbol(acc, symbols[1..])
  }

  // ------------------------------------------------------------------ the invariants

  ghost function Ids(es: seq<Event>): set<string> { set e | e in es :: e.eventId }

  ghost predicate DistinctIds(es: seq<Event>) {
    forall i, j | 0 <= i < j < |es| :: es[i].eventId != es[j].eventId
  }

  /** The buffer is the end of the history, with exactly its ids. */
  ghost predicate Kept(b: Buffer, maxEvents: nat, acc: seq<Event>) {
    && 1 <= maxEvents
    && |b.events| <= maxEvents
    && b.droppedBufferCount + |b.events| == |acc|
    && (b.droppedBufferCount > 0 ==> |b.events| == maxEvents)
    && b.events == acc[b.droppedBufferCount..]
    && b.eventIds == Ids(b.events)
    && DistinctIds(b.events)
  }

  ghost predicate GapsCounted(b: Books, symbols: seq<string>, acc: seq<Event>) {
    && b.lastCallbackSeq == MaxOf(CallbackNumbers(acc))
    && b.callbackGapCount == Skipped(CallbackNumbers(acc))
    && ProvidersSeen(b, acc)
    && b.providerGapCount == SkippedPerSymbol(acc, symbols)
    && b.outOfOrderCount == Regressions(CallbackNumbers(acc)) + RegressionsPerSymbol(acc, symbols)
  }

  ghost predicate ProvidersSeen(b: Books, acc: seq<Event>) {
    forall x :: SeenAt(b, acc, x)
  }

  ghost predicate Reported(r: Receipts, l: Link) {
    && |r.latencies| <= MAX_LATENCIES
    && (forall i | 0 <= i < |r.latencies| :: r.latencies[i] >= 0.0)
    && (l.lastErrorCode.Some? <==> l.lastErrorAt.Some?)
    && (l.lastErrorCode.Some? ==> ErrorCodeOk(l.lastErrorCode.value))
  }

  ghost predicate Inv(s: State, acc: seq<Event>) {
    && Distinct(s.config.symbols)
    && Subscribed(s.config, acc)
    && s.callbackCount == s.duplicateCount + |acc|
    && Kept(s.buffer, s.config.maxEvents, acc)
    && GapsCounted(s.books, s.config.symbols, acc)
    && Reported(s.receipts, s.link)
  }

  lemma StartInv(symbols: seq<string>, backend: string, maxEvents: int, sessionId: string)
    requires Start(symbols, backend, maxEvents, sessionId).Ok?
    ensures Inv(Start(symbols, backend, maxEvents, sessionId).value, [])
  {
    EmptyPerSymbol(symbols);
  }

  lemma {:induction false} EmptyPerSymbol(symbols: seq<string>)
    ensures SkippedPerSymbol([], symbols) == 0 && RegressionsPerSymbol([], symbols) == 0
  {
    if symbols != [] { EmptyPerSymbol(symbols[1..]); }
  }

  // -------------------------------------------------------------------- one append

  lemma Snoc<T>(xs: seq<T>, x: T)
    ensures (xs + [x])[..|xs + [x]| - 1] == xs && (xs + [x])[|xs + [x]| - 1] == x
  {
  }

  lemma SkippedStep(ns: seq<nat>, n: nat)
    ensures MaxOf(ns + [n]) == Max(MaxOf(ns), n)
    ensures Skipped(ns + [n]) - Skipped(ns) == if ns != [] && n > MaxOf(ns) + 1 then n - MaxOf(ns) - 1 else 0
    ensures Regressions(ns + [n]) - Regressions(ns) == if ns != [] && n <= MaxOf(ns) then 1 else 0
  {
    Snoc(ns, n);
  }

  lemma {:induction false} MaxPositive(acc: seq<Event>)
    ensures |CallbackNumbers(acc)| == |acc|
    ensures MaxOf(CallbackNumbers(acc)) == 0 <==> acc == []
  {
    if acc != [] {
      MaxPositive(acc[..|acc| - 1]);
      Snoc(CallbackNumbers(acc[..|acc| - 1]), acc[|acc| - 1].callbackSeq);
    }
  }

  /** Only the summand of the event's own symbol moves. */
  lemma {:induction false} PerSymbolStep(acc: seq<Event>, e: Event, symbols: seq<string>)
    requires Distinct(symbols)
    ensures var before, after := ProviderNumbers(acc, e.symbol), ProviderNumbers(acc + [e], e.symbol);
            && SkippedPerSymbol(acc + [e], symbols) - SkippedPerSymbol(acc, symbols)
               == (if e.symbol in symbols then Skipped(after) - Skipped(before) else 0)
            && RegressionsPerSymbol(acc + [e], symbols) - RegressionsPerSymbol(acc, symbols)
               == if e.symbol in symbols then Regressions(after) - Regressions(before) else 0
  {
    Snoc(acc, e);
    if symbols != [] {
      var rest := symbols[1..];
      forall i, j | 0 <= i < j < |rest| ensures rest[i] != rest[j] {
        assert symbols[i + 1] != symbols[j + 1];
      }
      PerSymbolStep(acc, e, rest);
      assert symbols == [symbols[0]] + rest;
      if symbols[0] == e.symbol {
        forall j | 0 <= j < |rest| ensures rest[j] != e.symbol {
          assert symbols[0] != symbols[j + 1];
        }
        assert e.symbol !in rest;
      } else {
        assert ProviderNumbers(acc, symbols[0]) + [] == ProviderNumbers(acc, symbols[0]);
      }
    }
  }

  lemma IdsWithoutFirst(es: seq<Event>)
    requires es != [] && DistinctIds(es)
    ensures Ids(es[1..]) == Ids(es) - {es[0].eventId} && DistinctIds(es[1..])
  {
    assert es == [es[0]] + es[1..];
    forall x | x in es[1..] ensures x.eventId != es[0].eventId {
      var i :| 0 <= i < |es[1..]| && es[1..][i] == x;
      assert es[i + 1] == x;
    }
  }

  lemma IdsWithLast(es: seq<Event>, e: Event)
    requires DistinctIds(es) && e.eventId !in Ids(es)
    ensures Ids(es + [e]) == Ids(es) + {e.eventId} && DistinctIds(es + [e])
  {
    forall i | 0 <= i < |es| ensures es[i].eventId != e.eventId {
      assert es[i] in es;
    }
  }

  lemma StoreKeeps(b: Buffer, maxEvents: nat, e: Event, acc: seq<Event>)
    requires Kept(b, maxEvents, acc) && e.eventId !in b.eventIds
    ensures Kept(Store(b, maxEvents, e), maxEvents, acc + [e])
  {
    if |b.events| == maxEvents {
      IdsWithoutFirst(b.events);
      IdsWithLast(b.events[1..], e);
    } else {
      IdsWithLast(b.events, e);
    }
  }

  lemma CallbackStep(b: Books, e: Event, acc: seq<Event>)
    requires b.lastCallbackSeq == MaxOf(CallbackNumbers(acc))
    ensures var t := CountCallback(b, e.callbackSeq);
            var before, after := CallbackNumbers(acc), CallbackNumbers(acc + [e]);
            && t.lastCallbackSeq == MaxOf(after)
            && t.callbackGapCount - b.callbackGapCount == Skipped(after) - Skipped(before)
            && t.outOfOrderCount - b.outOfOrderCount == Regressions(after) - Regressions(before)
            && t.lastProviderSeqs == b.lastProviderSeqs && t.providerGapCount == b.providerGapCount
  {
    Snoc(acc, e);
    MaxPositive(acc);
    SkippedStep(CallbackNumbers(acc), e.callbackSeq);
  }

  lemma ProviderNumbersStep(acc: seq<Event>, e: Event, x: string)
    ensures ProviderNumbers(acc + [e], x)
            == if x == e.symbol && e.providerSeq.Some? then ProviderNumbers(acc, x) + [e.providerSeq.value]
               else ProviderNumbers(acc, x)
  {
    Snoc(acc, e);
    assert ProviderNumbers(acc, x) + [] == ProviderNumbers(acc, x);
  }

  ghost predicate SeenAt(b: Books, acc: seq<Event>, x: string) {
    && (x in b.lastProviderSeqs <==> ProviderNumbers(acc, x) != [])
    && (x in b.lastProviderSeqs ==> b.lastProviderSeqs[x] == MaxOf(ProviderNumbers(acc, x)))
  }

  lemma ProviderEntry(b: Books, e: Event)
    ensures CountProvider(b, e).lastProviderSeqs ==
            if e.providerSeq.None? then b.lastProviderSeqs
            else b.lastProviderSeqs[e.symbol := if e.symbol in b.lastProviderSeqs
                                                then Max(b.lastProviderSeqs[e.symbol], e.providerSeq.value)
                                                else e.providerSeq.value]
  {
  }

  lemma MaxSnoc(ns: seq<nat>, n: nat)
    ensures MaxOf(ns + [n]) == (if ns == [] then n else Max(MaxOf(ns), n))
  {
    assert (ns + [n])[..|ns + [n]| - 1] == ns;
  }

  lemma SeenAtStep(b: Books, e: Event, acc: seq<Event>, x: string)
    requires SeenAt(b, acc, x)
    ensures SeenAt(CountProvider(b, e), acc + [e], x)
  {
    ProviderNumbersStep(acc, e, x);
    ProviderEntry(b, e);
    if x == e.symbol && e.providerSeq.Some? {
      MaxSnoc(ProviderNumbers(acc, x), e.providerSeq.value);
    }
  }

  lemma ProvidersSeenStep(b: Books, e: Event, acc: seq<Event>)
    requires ProvidersSeen(b, acc)
    ensures ProvidersSeen(CountProvider(b, e), acc + [e])
  {
    forall x ensures SeenAt(CountProvider(b, e), acc + [e], x) {
      assert SeenAt(b, acc, x);
      SeenAtStep(b, e, acc, x);
    }
  }

  lemma ProviderStep(b: Books, e: Event, acc: seq<Event>)
    requires ProvidersSeen(b, acc)
    ensures var t := CountProvider(b, e);
            var before, after := ProviderNumbers(acc, e.symbol), ProviderNumbers(acc + [e], e.symbol);
            && t.lastCallbackSeq == b.lastCallbackSeq && t.callbackGapCount == b.callbackGapCount
            && t.providerGapCount - b.providerGapCount == Skipped(after) - Skipped(before)
            && t.outOfOrderCount - b.outOfOrderCount == Regressions(after) - Regressions(before)
  {
    assert SeenAt(b, acc, e.symbol);
    ProviderNumbersStep(acc, e, e.symbol);
    if e.providerSeq.Some? {
      SkippedStep(ProviderNumbers(acc, e.symbol), e.providerSeq.value);
    }
  }

  lemma CountsStep(b: Books, symbols: seq<string>, e: Event, acc: seq<Event>)
    requires GapsCounted(b, symbols, acc) && Distinct(symbols) && e.symbol in symbols
    ensures GapsCounted(CountProvider(CountCallback(b, e.callbackSeq), e), symbols, acc + [e])
  {
    hide CountCallback, CountProvider, MaxOf, Skipped, Regressions, CallbackNumbers, ProviderNumbers;
    var c := CountCallback(b, e.callbackSeq);
    CallbackStep(b, e, acc);
    forall x ensures SeenAt(c, acc, x) {
      assert SeenAt(b, acc, x);
    }
    ProvidersSeenStep(c, e, acc);
    ProviderStep(c, e, acc);
    PerSymbolStep(acc, e, symbols);
  }

  ghost predicate Subscribed(c: Config, acc: seq<Event>) {
    forall e | e in acc :: e.symbol in c.symbols && e.sessionId == c.sessionId
  }

  lemma AcceptInv(s: State, e: Event, acc: seq<Event>)
    requires Inv(s, acc) && e.eventId !in s.buffer.eventIds
    requires e.symbol in s.config.symbols && e.sessionId == s.config.sessionId
    ensures Inv(Accept(s.(callbackCount := s.callbackCount + 1), e), acc + [e])
  {
    hide Kept, GapsCounted, Reported, Store, CountCallback, CountProvider, Record;
    StoreKeeps(s.buffer, s.config.maxEvents, e, acc);
    CountsStep(s.books, s.config.symbols, e, acc);
    ReceiptsStep(s.receipts, s.link, e);
    assert Subscribed(s.config, acc + [e]);
  }

  lemma RefusedInv(s: State, e: Event, now: int, acc: seq<Event>)
    requires Inv(s, acc) && Append(s, e, now).1 != Appended
    ensures Inv(Append(s, e, now).0, acc)
  {
    var t := Append(s, e, now).0;
    assert t.buffer == s.buffer && t.books == s.books && t.receipts == s.receipts && t.link == s.link;
    assert t.config == s.config;
  }

  /** Whatever is appended, in whatever order, the books stay balanced. */
  lemma AppendInv(s: State, e: Event, now: int, acc: seq<Event>)
    requires Inv(s, acc)
    ensures Append(s, e, now).1 == Appended ==> Inv(Append(s, e, now).0, acc + [e])
    ensures Append(s, e, now).1 != Appended ==> Inv(Append(s, e, now).0, acc)
  {
    if Append(s, e, now).1 == Appended {
      AcceptInv(s, e, acc);
    } else {
      RefusedInv(s, e, now, acc);
    }
  }

  lemma ReceiptsStep(r: Receipts, l: Link, e: Event)
    requires Reported(r, l)
    ensures Reported(Record(r, e), l)
  {
  }

  // -------------------------------------------------------------------- whole runs

  datatype Call =
    | CallConnect(mode: Option<string>, now: int)
    | CallDisconnect(code: string, now: int)
    | CallReconnect
    | CallNextCallback
    | CallNextProvider(symbol: string)
    | CallAppend(e: Event, now: int)

  function Do(s: State, c: Call): State {
    match c
    case CallConnect(mode, now) => (match Connect(s, mode, now) case Ok(t) => t case Err(_) => s)
    case CallDisconnect(code, now) => Disconnect(s, code, now)
    case CallReconnect => Reconnect(s)
    case CallNextCallback => NextCallbackSeq(s).0
    case CallNextProvider(symbol) => NextProviderSeq(s, symbol).0
    case CallAppend(e, now) => Append(s, e, now).0
  }

  function DoAll(s: State, calls: seq<Call>): State
    decreases |calls|
  {
    if |calls| == 0 then s else DoAll(Do(s, calls[0]), calls[1..])
  }

  /** What a call adds to the history. */
  function Added(s: State, c: Call): seq<Event> {
    if c.CallAppend? && Append(s, c.e, c.now).1 == Appended then [c.e] else []
  }

  function Accepted(s: State, calls: seq<Call>): seq<Event>
    decreases |calls|
  {
    if calls == [] then []
    else Added(s, calls[0]) + Accepted(Do(s, calls[0]), calls[1..])
  }

  lemma OtherCallInv(s: State, t: State, acc: seq<Event>)
    requires Inv(s, acc) && t.config == s.config && t.buffer == s.buffer && t.books == s.books
    requires t.callbackCount == s.callbackCount && t.duplicateCount == s.duplicateCount
    requires Reported(t.receipts, t.link)
    ensures Inv(t, acc)
  {
  }

  lemma CallKeepsInv(s: State, c: Call, acc: seq<Event>)
    requires Inv(s, acc)
    ensures Inv(Do(s, c), acc + Added(s, c))
  {
    hide Append, Kept, GapsCounted, Subscribed;
    if c.CallAppend? {
      AppendCallInv(s, c, acc);
    } else {
      OtherCallInv(s, Do(s, c), acc);
      assert acc + [] == acc;
    }
  }

  lemma AppendCallInv(s: State, c: Call, acc: seq<Event>)
    requires Inv(s, acc) && c.CallAppend?
    ensures Inv(Do(s, c), acc + Added(s, c))
  {
    hide Inv, Append;
    AppendInv(s, c.e, c.now, acc);
    assert acc + [] == acc;
  }

  /** What every call keeps, every sequence of calls keeps. */
  lemma {:induction false} RunInduction(p: (State, seq<Event>) -> bool, s: State, calls: seq<Call>, acc: seq<Event>)
    requires p(s, acc)
    requires forall t, c, h | p(t, h) :: p(Do(t, c), h + Added(t, c))
    ensures p(DoAll(s, calls), acc + Accepted(s, calls))
    decreases |calls|
  {
    if calls == [] {
      assert acc + [] == acc;
    } else {
      hide Do, Added;
      var t, more := Do(s, calls[0]), Added(s, calls[0]);
      RunInduction(p, t, calls[1..], acc + more);
      assert acc + Accepted(s, calls) == acc + more + Accepted(t, calls[1..]);
    }
  }

  lemma CallsKeepInv(s: State, calls: seq<Call>, acc: seq<Event>)
    requires Inv(s, acc)
    ensures Inv(DoAll(s, calls), acc + Accepted(s, calls))
  {
    forall t, c, h | Inv(t, h) ensures Inv(Do(t, c), h + Added(t, c)) {
      CallKeepsInv(t, c, h);
    }
    RunInduction((t, h) => Inv(t, h), s, calls, acc);
  }

  /** Conservation and gap accounting in every reachable state. */
  lemma BooksBalance(symbols: seq<string>, backend: string, maxEvents: int, sessionId: string, calls: seq<Call>)
    requires Start(symbols, backend, maxEvents, sessionId).Ok?
    ensures var s0 := Start(symbols, backend, maxEvents, sessionId).value;
            var s, acc := DoAll(s0, calls), Accepted(s0, calls);
            && s.callbackCount == s.duplicateCount + s.buffer.droppedBufferCount + |s.buffer.events|
            && s.buffer.droppedBufferCount <= |acc| && s.buffer.events == acc[s.buffer.droppedBufferCount..]
            && |s.buffer.events| <= maxEvents
            && s.buffer.eventIds == Ids(s.buffer.events) && DistinctIds(s.buffer.events)
            && s.books.callbackGapCount == Skipped(CallbackNumbers(acc))
            && s.books.providerGapCount == SkippedPerSymbol(acc, symbols)
            && s.books.outOfOrderCount == Regressions(CallbackNumbers(acc)) + RegressionsPerSymbol(acc, symbols)
  {
    var s0 := Start(symbols, backend, maxEvents, sessionId).value;
    StartInv(symbols, backend, maxEvents, sessionId);
    CallsKeepInv(s0, calls, []);
    assert [] + Accepted(s0, calls) == Accepted(s0, calls);
    ConfigFixed(s0, calls);
  }

  lemma {:induction false} ConfigFixed(s: State, calls: seq<Call>)
    ensures DoAll(s, calls).config == s.config
    decreases |calls|
  {
    if calls != [] { ConfigFixed(Do(s, calls[0]), calls[1..]); }
  }
}
