/** The sidecar's event log as a value: what each operation of `SidecarRuntime` does to it
  (sidecars/xtp/runtime.py). Each locked block is one step; instants are microseconds. */
module SidecarState {
  import CanonicalJson
  import opened Prelude
  import opened Envelopes

  /** An `EventEnvelope`; construction has checked the ranges of its numbers. */
  type Event = e: Envelope | e.callbackSeq >= 1 && (e.providerSeq.Some? ==> e.providerSeq.value >= 0)
    witness Envelope("", "", "", "", "", "", "", None, None, 0, "", 1, None, "", CanonicalJson.Null, "")

  datatype Connection = Starting | Connected | Reconnecting | Disconnected

  datatype RuntimeError =
    | BadBackend | BadSymbols | BadMaxEvents | BadFeedMode | BadTimes | BadSession | WrongFeedMode | NotSubscribed
    | BadAfter | BadLimit

  const MAX_SYMBOLS := 20
  const MIN_EVENTS := 100
  const MAX_LATENCIES := 4096

  datatype Config = Config(sessionId: string, symbols: seq<string>, maxEvents: nat)

  /** The connection and its last error. */
  datatype Link = Link(
    feedMode: string,
    connection: Connection,
    connectedAt: Option<int>,
    reconnectCount: nat,
    disconnectCount: nat,
    lastErrorCode: Option<string>,
    lastErrorAt: Option<int>)

  /** The sequence numbers handed out. */
  datatype Allocator = Allocator(callbackSeq: nat, providerSeqs: map<string, nat>)

  /** The bounded buffer with the ids it holds. */
  datatype Buffer = Buffer(events: seq<Event>, eventIds: set<string>, droppedBufferCount: nat)

  /** Gap and order accounting. */
  datatype Books = Books(
    lastCallbackSeq: nat,
    lastProviderSeqs: map<string, nat>,
    callbackGapCount: nat,
    providerGapCount: nat,
    outOfOrderCount: nat)

  datatype Receipts = Receipts(lastEventAt: Option<int>, latencies: seq<real>)

  datatype State = State(
    config: Config,
    link: Link,
    allocator: Allocator,
    buffer: Buffer,
    books: Books,
    receipts: Receipts,
    callbackCount: nat,
    duplicateCount: nat)

  predicate Distinct<T(==)>(s: seq<T>) { forall i, j | 0 <= i < j < |s| :: s[i] != s[j] }

  /** `validate_symbol_list`. */
  predicate SymbolsOk(symbols: seq<string>) {
    0 < |symbols| <= MAX_SYMBOLS && Distinct(symbols) && forall i | 0 <= i < |symbols| :: SymbolText(symbols[i])
  }

  /** `SidecarRuntime.__init__`. */
  function Start(symbols: seq<string>, backend: string, maxEvents: int, sessionId: string)
    : Result<State, RuntimeError>
  {
    if !SymbolsOk(symbols) then Err(BadSymbols)
    else if backend !in {"simulator", "xtp"} then Err(BadBackend)
    else if maxEvents < MIN_EVENTS then Err(BadMaxEvents)
    else Ok(State(Config(sessionId, symbols, maxEvents),
                  Link(if backend == "simulator" then "SIMULATOR" else "LEVEL1", Starting, None, 0, 0, None, None),
                  Allocator(0, map[]), Buffer([], {}, 0), Books(0, map[], 0, 0, 0), Receipts(None, []), 0, 0))
  }

  function Connect(s: State, feedMode: Option<string>, now: int): Result<State, RuntimeError> {
    if feedMode.Some? && !FeedModeOk(feedMode.value) then Err(BadFeedMode)
    else Ok(s.(link := s.link.(connection := Connected, connectedAt := Some(now),
                               feedMode := if feedMode.Some? then feedMode.value else s.link.feedMode)))
  }

  predicate ErrorCodeOk(code: string) {
    && 0 < |code| <= 128
    && forall i | 0 <= i < |code| :: 'A' <= code[i] <= 'Z' || '0' <= code[i] <= '9' || code[i] in "._:-"
  }

  /** `code` is the text after `strip` and `upper`. */
  function SafeErrorCode(code: string): string { if ErrorCodeOk(code) then code else "DISCONNECTED" }

  function Disconnect(s: State, code: string, now: int): State {
    s.(link := s.link.(connection := Disconnected, disconnectCount := s.link.disconnectCount + 1,
                       lastErrorCode := Some(SafeErrorCode(code)), lastErrorAt := Some(now)))
  }

  function Reconnect(s: State): State {
    s.(link := s.link.(connection := Reconnecting, reconnectCount := s.link.reconnectCount + 1))
  }

  function NextCallbackSeq(s: State): (State, nat) {
    var n := s.allocator.callbackSeq + 1;
    (s.(allocator := s.allocator.(callbackSeq := n)), n)
  }

  function NextProviderSeq(s: State, symbol: string): (State, nat) {
    var seqs := s.allocator.providerSeqs;
    var n := (if symbol in seqs then seqs[symbol] else 0) + 1;
    (s.(allocator := s.allocator.(providerSeqs := seqs[symbol := n])), n)
  }

  datatype Outcome = Appended | Duplicate | Refused(reason: RuntimeError)

  /** Why an event is refused; `now` is the clock at its re-validation. */
  function Refusal(s: State, e: Event, now: int): Option<RuntimeError> {
    if !TimesOk(e, now) then Some(BadTimes)
    else if e.sessionId != s.config.sessionId then Some(BadSession)
    else if e.feedMode != s.link.feedMode then Some(WrongFeedMode)
    else if e.symbol !in s.config.symbols then Some(NotSubscribed)
    else None
  }

  /** `append`. */
  function Append(s: State, e: Event, now: int): (State, Outcome) {
    var refusal := Refusal(s, e, now);
    if refusal.Some? then (s, Refused(refusal.value))
    else
      var t := s.(callbackCount := s.callbackCount + 1);
      if e.eventId in s.buffer.eventIds then (t.(duplicateCount := s.duplicateCount + 1), Duplicate)
      else (Accept(t, e), Appended)
  }

  function Accept(s: State, e: Event): State {
    s.(books := CountProvider(CountCallback(s.books, e.callbackSeq), e),
       buffer := Store(s.buffer, s.config.maxEvents, e),
       receipts := Record(s.receipts, e))
  }

  function CountCallback(b: Books, n: nat): Books {
    var last := b.lastCallbackSeq;
    var t := b.(lastCallbackSeq := Max(last, n));
    if last != 0 && n <= last then t.(outOfOrderCount := b.outOfOrderCount + 1)
    else if last != 0 && n > last + 1 then t.(callbackGapCount := b.callbackGapCount + n - last - 1)
    else t
  }

  function CountProvider(b: Books, e: Event): Books {
    if e.providerSeq.None? then b
    else
      var n: nat := e.providerSeq.value;
      if e.symbol !in b.lastProviderSeqs then b.(lastProviderSeqs := b.lastProviderSeqs[e.symbol := n])
      else
        var previous := b.lastProviderSeqs[e.symbol];
        var t := b.(lastProviderSeqs := b.lastProviderSeqs[e.symbol := Max(previous, n)]);
        if n <= previous then t.(outOfOrderCount := b.outOfOrderCount + 1)
        else if n > previous + 1 then t.(providerGapCount := b.providerGapCount + n - previous - 1)
        else t
  }

  /** Evict the oldest event of a full buffer, then append. */
  function Store(b: Buffer, maxEvents: nat, e: Event): Buffer {
    if |b.events| == maxEvents && b.events != [] then
      Buffer(b.events[1..] + [e], b.eventIds - {b.events[0].eventId} + {e.eventId}, b.droppedBufferCount + 1)
    else Buffer(b.events + [e], b.eventIds + {e.eventId}, b.droppedBufferCount)
  }

  function Record(r: Receipts, e: Event): Receipts {
    Receipts(Some(e.receivedAt),
             if e.exchangeTimestamp.None? && e.providerTimestamp.None? then r.latencies
             else Bounded(r.latencies, Latency(e)))
  }

  /** Milliseconds from the reference instant to receipt, never negative. */
  function Latency(e: Event): (r: real)
    ensures r >= 0.0
  {
    MaxReal(0.0, (e.receivedAt - SourceTime(e)) as real / 1000.0)
  }

  /** `deque(maxlen=4096).append`. */
  function Bounded(xs: seq<real>, x: real): seq<real> {
    if |xs| >= MAX_LATENCIES then xs[|xs| - MAX_LATENCIES + 1..] + [x] else xs + [x]
  }

  // ---------------------------------------------------------------------- reading

  datatype Page = Page(
    sessionId: string, after: nat, oldestCursor: nat, nextCursor: nat, cursorLost: bool, hasMore: bool,
    events: seq<Event>)

  /** The events with a number above `cursor`, in buffer order. */
  function After(es: seq<Event>, cursor: nat): seq<Event> {
    if es == [] then []
    else (if es[0].callbackSeq > cursor then [es[0]] else []) + After(es[1..], cursor)
  }

  function Take(es: seq<Event>, n: nat): seq<Event> { if |es| <= n then es else es[..n] }

  /** `events_after`. */
  function EventsAfter(s: State, after: int, limit: int): Result<Page, RuntimeError> {
    if after < 0 then Err(BadAfter)
    else if !(1 <= limit <= 500) then Err(BadLimit)
    else Ok(PageAfter(s, after, limit))
  }

  function PageAfter(s: State, after: nat, limit: nat): Page {
    var es := s.buffer.events;
    var oldest := if es != [] then es[0].callbackSeq else 0;
    var lost := es != [] && after < oldest - 1;
    var selected := Take(After(es, after), limit);
    var next := if selected == [] then after else selected[|selected| - 1].callbackSeq;
    Page(s.config.sessionId, after, oldest, next, lost, After(es, next) != [], selected)
  }
}
