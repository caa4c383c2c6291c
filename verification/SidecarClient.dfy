/** The polling peer (stock_tracker/collector/xtp_sidecar.py): it checks a page before it
  moves its cursor. */
module SidecarClient {
  import opened Prelude
  import opened Envelopes
  import opened SidecarState

  /** A response after JSON decoding and the check of its exact keys and value types. */
  datatype WirePage = WirePage(
    schemaOk: bool, sessionId: string, after: int, oldestCursor: int, nextCursor: int,
    cursorLost: bool, hasMore: bool, events: seq<Wire>)

  /** The optional `expected_*` arguments and the configured maxima. */
  datatype Expectation = Expectation(
    sessionId: Option<string>, feedMode: Option<string>, symbols: Option<seq<string>>,
    maxPage: nat, maxSymbols: nat)

  datatype ClientError =
    | BadArgument | BadSchema | CursorMismatch | CursorLost | BadCursor | PageTooLong | BadEvent
    | BadSessionId | SessionChanged | OldestTooNew | EventSession | EventMode | EventSymbol
    | NotOrdered | WrongNextCursor | EmptyAdvanced | EmptyHasMore

  datatype Delivery = Delivery(events: seq<Envelope>, nextCursor: int, hasMore: bool)

  predicate ArgumentsOk(after: int, limit: int, x: Expectation) {
    && after >= 0
    && (x.sessionId.Some? ==> IdentifierText(x.sessionId.value))
    && (x.feedMode.Some? ==> FeedModeOk(x.feedMode.value))
    && (x.symbols.Some? ==>
          && 0 < |x.symbols.value| <= x.maxSymbols && Distinct(x.symbols.value)
          && forall i | 0 <= i < |x.symbols.value| :: SymbolText(x.symbols.value[i]))
    && 1 <= limit <= x.maxPage
  }

  /** Every event decoded, or nothing. */
  function DecodeAll(lib: Lib, ws: seq<Wire>, now: int): (r: Option<seq<Envelope>>)
    ensures r.Some? ==> |r.value| == |ws|
  {
    if ws == [] then Some([])
    else match (FromDict(lib, ws[0], now), DecodeAll(lib, ws[1..], now))
      case (Ok(e), Some(es)) => Some([e] + es)
      case _ => None
  }

  predicate EventFits(e: Envelope, session: string, x: Expectation) {
    && e.sessionId == session
    && (x.feedMode.Some? ==> e.feedMode == x.feedMode.value)
    && (x.symbols.Some? ==> e.symbol in x.symbols.value)
  }

  /** Numbers rise strictly, starting above `after`. */
  ghost predicate RisesFrom(after: int, es: seq<Envelope>) {
    && (forall i | 0 <= i < |es| :: after < es[i].callbackSeq)
    && forall i, j | 0 <= i < j < |es| :: es[i].callbackSeq < es[j].callbackSeq
  }

  /** What a client may rely on once a page was accepted. */
  ghost predicate PageOk(p: WirePage, es: seq<Envelope>, after: int, limit: int, x: Expectation) {
    && p.schemaOk && p.after == after && p.oldestCursor >= 0 && !p.cursorLost
    && p.nextCursor >= after && |es| <= limit
    && IdentifierText(p.sessionId) && (x.sessionId.Some? ==> p.sessionId == x.sessionId.value)
    && (es != [] ==> p.oldestCursor <= es[0].callbackSeq)
    && (forall i | 0 <= i < |es| :: EventFits(es[i], p.sessionId, x))
    && RisesFrom(after, es)
    && p.nextCursor == (if es == [] then after else es[|es| - 1].callbackSeq)
    && (es == [] ==> !p.hasMore)
  }

  /** The checks of `XtpSidecarClient.events` that come before the loop over the events. */
  function CheckHeader(p: WirePage, after: int, limit: int, x: Expectation): Option<ClientError> {
    if !p.schemaOk then Some(BadSchema)
    else if p.after != after then Some(CursorMismatch)
    else if p.oldestCursor < 0 || p.nextCursor < 0 then Some(BadCursor)
    else if p.cursorLost then Some(CursorLost)
    else if p.nextCursor < after then Some(BadCursor)
    else if |p.events| > limit then Some(PageTooLong)
    else None
  }

  /** A page with nothing wrong but the order of its events. */
  ghost predicate OnlyDisordered(p: WirePage, es: seq<Envelope>, after: int, limit: int, x: Expectation) {
    && CheckHeader(p, after, limit, x).None?
    && IdentifierText(p.sessionId) && (x.sessionId.Some? ==> p.sessionId == x.sessionId.value)
    && (es != [] ==> p.oldestCursor <= es[0].callbackSeq)
    && (forall i | 0 <= i < |es| :: EventFits(es[i], p.sessionId, x))
    && !RisesFrom(after, es)
  }

  /** The loop over the decoded events. */
  method CheckEvents(events: seq<Envelope>, after: int, session: string, x: Expectation)
    returns (r: Option<ClientError>)
    ensures r.None? <==> RisesFrom(after, events) && forall k | 0 <= k < |events| :: EventFits(events[k], session, x)
    ensures (!RisesFrom(after, events) && forall k | 0 <= k < |events| :: EventFits(events[k], session, x))
            ==> r == Some(NotOrdered)
  {
    var previous := after;
    for i := 0 to |events|
      invariant forall k | 0 <= k < i :: EventFits(events[k], session, x)
      invariant RisesFrom(after, events[..i])
      invariant previous == if i == 0 then after else events[i - 1].callbackSeq
    {
      var event := events[i];
      if event.sessionId != session { return Some(EventSession); }
      if x.feedMode.Some? && event.feedMode != x.feedMode.value { return Some(EventMode); }
      if x.symbols.Some? && event.symbol !in x.symbols.value { return Some(EventSymbol); }
      if event.callbackSeq <= previous {
        assert i > 0 ==> events[i - 1].callbackSeq >= events[i].callbackSeq;
        return Some(NotOrdered);
      }
      assert events[..i + 1] == events[..i] + [event];
      previous := event.callbackSeq;
    }
    assert events[..|events|] == events;
    return None;
  }

  /** `XtpSidecarClient.events` after the request: accepted exactly when the page is in order. */
  method Events(lib: Lib, p: WirePage, after: int, limit: int, x: Expectation, now: int)
    returns (r: Result<Delivery, ClientError>)
    ensures r.Ok? <==>
              && ArgumentsOk(after, limit, x)
              && DecodeAll(lib, p.events, now).Some?
              && PageOk(p, DecodeAll(lib, p.events, now).value, after, limit, x)
    ensures r.Ok? ==> r.value == Delivery(DecodeAll(lib, p.events, now).value, p.nextCursor, p.hasMore)
    ensures ArgumentsOk(after, limit, x) && CheckHeader(p, after, limit, x) == Some(CursorLost) ==> r == Err(CursorLost)
    ensures (&& ArgumentsOk(after, limit, x)
             && DecodeAll(lib, p.events, now).Some?
             && OnlyDisordered(p, DecodeAll(lib, p.events, now).value, after, limit, x))
            ==> r == Err(NotOrdered)
  {
    if !ArgumentsOk(after, limit, x) { return Err(BadArgument); }
    var header := CheckHeader(p, after, limit, x);
    if header.Some? { return Err(header.value); }
    var decoded := DecodeAll(lib, p.events, now);
    if decoded.None? { return Err(BadEvent); }
    var events := decoded.value;
    if !IdentifierText(p.sessionId) { return Err(BadSessionId); }
    if x.sessionId.Some? && p.sessionId != x.sessionId.value { return Err(SessionChanged); }
    if events != [] && p.oldestCursor > events[0].callbackSeq { return Err(OldestTooNew); }
    var failure := CheckEvents(events, after, p.sessionId, x);
    if failure.Some? { return Err(failure.value); }
    if events != [] && events[|events| - 1].callbackSeq != p.nextCursor { return Err(WrongNextCursor); }
    if events == [] && p.nextCursor != after { return Err(EmptyAdvanced); }
    if events == [] && p.hasMore { return Err(EmptyHasMore); }
    return Ok(Delivery(events, p.nextCursor, p.hasMore));
  }

  // ------------------------------------------------------------------ honest pages

  function WireEvents(lib: Lib, es: seq<Event>): seq<Wire> {
    if es == [] then [] else [AsDict(lib, es[0])] + WireEvents(lib, es[1..])
  }

  /** The runtime's page as it goes over the wire. */
  function ToWire(lib: Lib, p: Page): WirePage {
    WirePage(true, p.sessionId, p.after, p.oldestCursor, p.nextCursor, p.cursorLost, p.hasMore,
             WireEvents(lib, p.events))
  }

  ghost predicate AllFresh(es: seq<Event>, now: int) { forall i | 0 <= i < |es| :: TimesOk(es[i], now) }

  lemma FreshCons(es: seq<Event>, now: int)
    requires es != []
    ensures AllFresh(es, now) <==> TimesOk(es[0], now) && AllFresh(es[1..], now)
  {
    assert es == [es[0]] + es[1..];
  }

  lemma DecodeCons(lib: Lib, es: seq<Event>, now: int)
    requires es != [] && LibOk(lib) && Built(lib, es[0])
    ensures var rest := DecodeAll(lib, WireEvents(lib, es[1..]), now);
            DecodeAll(lib, WireEvents(lib, es), now)
            == if !TimesOk(es[0], now) || rest.None? then None else Some([es[0]] + rest.value)
  {
    WireRoundTrip(lib, es[0], now);
    assert WireEvents(lib, es)[1..] == WireEvents(lib, es[1..]);
  }

  ghost predicate AllBuilt(lib: Lib, es: seq<Event>) { forall i | 0 <= i < |es| :: Built(lib, es[i]) }

  lemma BuiltCons(lib: Lib, es: seq<Event>)
    requires es != [] && AllBuilt(lib, es)
    ensures Built(lib, es[0]) && AllBuilt(lib, es[1..])
  {
  }

  lemma {:induction false} DecodeHonest(lib: Lib, es: seq<Event>, now: int)
    requires LibOk(lib) && AllBuilt(lib, es)
    ensures DecodeAll(lib, WireEvents(lib, es), now) == if AllFresh(es, now) then Some(es) else None
  {
    hide FromDict, AsDict, Built;
    if es != [] {
      BuiltCons(lib, es);
      DecodeHonest(lib, es[1..], now);
      DecodeCons(lib, es, now);
      FreshCons(es, now);
      assert es == [es[0]] + es[1..];
    }
  }
}
