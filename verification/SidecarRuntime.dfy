/** The in-memory runtime object itself (sidecars/xtp/runtime.py). */
module SidecarRuntime {
  import opened Prelude
  import opened Envelopes
  import opened SidecarState

  class Runtime {
    const symbols: seq<string>
    const sessionId: string
    const maxEvents: nat
    var feedMode: string
    var connection: Connection
    var connectedAt: Option<int>
    var events: seq<Event>
    var eventIds: set<string>
    var callbackSeq: nat
    var providerSeqs: map<string, nat>
    var lastCallbackSeq: nat
    var lastProviderSeqs: map<string, nat>
    var latencies: seq<real>
    var callbackCount: nat
    var duplicateCount: nat
    var callbackGapCount: nat
    var providerGapCount: nat
    var outOfOrderCount: nat
    var reconnectCount: nat
    var disconnectCount: nat
    var droppedBufferCount: nat
    var lastErrorCode: Option<string>
    var lastErrorAt: Option<int>
    var lastEventAt: Option<int>

    ghost function BooksNow(): Books
      reads `lastCallbackSeq, `lastProviderSeqs, `callbackGapCount, `providerGapCount, `outOfOrderCount
    {
      Books(lastCallbackSeq, lastProviderSeqs, callbackGapCount, providerGapCount, outOfOrderCount)
    }

    ghost function BufferNow(): Buffer
      reads `events, `eventIds, `droppedBufferCount
    {
      Buffer(events, eventIds, droppedBufferCount)
    }

    ghost function ReceiptsNow(): Receipts
      reads `lastEventAt, `latencies
    {
      Receipts(lastEventAt, latencies)
    }

    ghost function ConfigNow(): Config
    {
      Config(sessionId, symbols, maxEvents)
    }

    ghost function LinkNow(): Link
      reads `feedMode, `connection, `connectedAt, `reconnectCount, `disconnectCount, `lastErrorCode, `lastErrorAt
    {
      Link(feedMode, connection, connectedAt, reconnectCount, disconnectCount, lastErrorCode, lastErrorAt)
    }

    ghost function AllocatorNow(): Allocator
      reads `callbackSeq, `providerSeqs
    {
      Allocator(callbackSeq, providerSeqs)
    }

    ghost function View(): State
      reads this
    {
      State(ConfigNow(), LinkNow(), AllocatorNow(), BufferNow(), BooksNow(), ReceiptsNow(),
            callbackCount, duplicateCount)
    }

    constructor (symbols: seq<string>, backend: string, maxEvents: int, sessionId: string)
      requires Start(symbols, backend, maxEvents, sessionId).Ok?
      ensures View() == Start(symbols, backend, maxEvents, sessionId).value
    {
      this.symbols, this.sessionId, this.maxEvents := symbols, sessionId, maxEvents;
      feedMode := if backend == "simulator" then "SIMULATOR" else "LEVEL1";
      connection, connectedAt := Starting, None;
      events, eventIds := [], {};
      callbackSeq, providerSeqs := 0, map[];
      lastCallbackSeq, lastProviderSeqs := 0, map[];
      latencies := [];
      callbackCount, duplicateCount, callbackGapCount, providerGapCount, outOfOrderCount := 0, 0, 0, 0, 0;
      reconnectCount, disconnectCount, droppedBufferCount := 0, 0, 0;
      lastErrorCode, lastErrorAt, lastEventAt := None, None, None;
    }

    method MarkConnected(mode: Option<string>, now: int) returns (ok: bool)
      modifies this
      ensures ok <==> Connect(old(View()), mode, now).Ok?
      ensures View() == if ok then Connect(old(View()), mode, now).value else old(View())
    {
      if mode.Some? && !FeedModeOk(mode.value) { return false; }
      connection := Connected;
      connectedAt := Some(now);
      if mode.Some? { feedMode := mode.value; }
      return true;
    }

    method MarkDisconnected(code: string, now: int)
      modifies this
      ensures View() == Disconnect(old(View()), code, now)
    {
      hide SafeErrorCode, AllocatorNow, BufferNow, BooksNow, ReceiptsNow;
      var safe := SafeErrorCode(code);
      connection := Disconnected;
      disconnectCount := disconnectCount + 1;
      lastErrorCode := Some(safe);
      lastErrorAt := Some(now);
    }

    method MarkReconnecting()
      modifies this
      ensures View() == Reconnect(old(View()))
    {
      connection := Reconnecting;
      reconnectCount := reconnectCount + 1;
    }

    method TakeCallbackSeq() returns (n: nat)
      modifies this
      ensures (View(), n) == NextCallbackSeq(old(View()))
    {
      callbackSeq := callbackSeq + 1;
      n := callbackSeq;
    }

    method TakeProviderSeq(symbol: string) returns (n: nat)
      modifies this
      ensures (View(), n) == NextProviderSeq(old(View()), symbol)
    {
      n := (if symbol in providerSeqs then providerSeqs[symbol] else 0) + 1;
      providerSeqs := providerSeqs[symbol := n];
    }

    method CheckEvent(e: Event, now: int) returns (refusal: Option<RuntimeError>)
      ensures refusal == Refusal(View(), e, now)
    {
      if !TimesOk(e, now) { return Some(BadTimes); }
      if e.sessionId != sessionId { return Some(BadSession); }
      if e.feedMode != feedMode { return Some(WrongFeedMode); }
      if e.symbol !in symbols { return Some(NotSubscribed); }
      return None;
    }

    method AppendEvent(e: Event, now: int) returns (r: Outcome)
      modifies this
      ensures (View(), r) == Append(old(View()), e, now)
    {
      hide Refusal, Accept;
      var refusal := CheckEvent(e, now);
      if refusal.Some? { return Refused(refusal.value); }
      callbackCount := callbackCount + 1;
      if e.eventId in eventIds {
        duplicateCount := duplicateCount + 1;
        return Duplicate;
      }
      AcceptEvent(e);
      return Appended;
    }

    method AcceptEvent(e: Event)
      modifies `lastCallbackSeq, `callbackGapCount, `outOfOrderCount, `lastProviderSeqs, `providerGapCount,
               `events, `eventIds, `droppedBufferCount, `lastEventAt, `latencies
      ensures View() == Accept(old(View()), e)
    {
      hide CountCallback, CountProvider, Store, Record, LinkNow, AllocatorNow, BufferNow, BooksNow, ReceiptsNow;
      CountCallbackSeq(e.callbackSeq);
      CountProviderSeq(e);
      StoreEvent(e);
      RecordReceipt(e);
    }

    /** The callback half of the accounting of an accepted append, and its provider half. */
    method CountCallbackSeq(n: nat)
      modifies `lastCallbackSeq, `callbackGapCount, `outOfOrderCount
      ensures BooksNow() == CountCallback(old(BooksNow()), n)
    {
      if lastCallbackSeq != 0 && n <= lastCallbackSeq {
        outOfOrderCount := outOfOrderCount + 1;
      } else if lastCallbackSeq != 0 && n > lastCallbackSeq + 1 {
        callbackGapCount := callbackGapCount + n - lastCallbackSeq - 1;
      }
      lastCallbackSeq := Max(lastCallbackSeq, n);
    }

    method CountProviderSeq(e: Event)
      modifies `lastProviderSeqs, `providerGapCount, `outOfOrderCount
      ensures BooksNow() == CountProvider(old(BooksNow()), e)
    {
      if e.providerSeq.Some? {
        var n: nat := e.providerSeq.value;
        var previous := 0;
        if e.symbol in lastProviderSeqs {
          previous := lastProviderSeqs[e.symbol];
          if n <= previous {
            outOfOrderCount := outOfOrderCount + 1;
          } else if n > previous + 1 {
            providerGapCount := providerGapCount + n - previous - 1;
          }
        }
        lastProviderSeqs := lastProviderSeqs[e.symbol := Max(previous, n)];
      }
    }

    /** The buffering half; the deque drops its head when it is full. */
    method StoreEvent(e: Event)
      modifies `events, `eventIds, `droppedBufferCount
      ensures BufferNow() == Store(old(BufferNow()), maxEvents, e)
    {
      if |events| == maxEvents && events != [] {
        eventIds := eventIds - {events[0].eventId};
        droppedBufferCount := droppedBufferCount + 1;
        events := events[1..] + [e];
      } else {
        events := events + [e];
      }
      eventIds := eventIds + {e.eventId};
    }

    method RecordReceipt(e: Event)
      modifies `lastEventAt, `latencies
      ensures ReceiptsNow() == Record(old(ReceiptsNow()), e)
    {
      lastEventAt := Some(e.receivedAt);
      if e.exchangeTimestamp.Some? || e.providerTimestamp.Some? {
        latencies := Bounded(latencies, Latency(e));
      }
    }

    method ReadEvents(after: int, limit: int) returns (r: Result<Page, RuntimeError>)
      ensures r == EventsAfter(View(), after, limit)
    {
      if after < 0 { return Err(BadAfter); }
      if !(1 <= limit <= 500) { return Err(BadLimit); }
      var oldest := if events != [] then events[0].callbackSeq else 0;
      var lost := events != [] && after < oldest - 1;
      var selected := Take(After(events, after), limit);
      var next := if selected == [] then after else selected[|selected| - 1].callbackSeq;
      r := Ok(Page(sessionId, after, oldest, next, lost, After(events, next) != [], selected));
    }
  }
}
