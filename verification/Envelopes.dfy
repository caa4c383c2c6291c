/** Event envelopes of the XTP sidecar (sidecars/xtp/contracts.py).
  Instants are microseconds; SHA-256 and the ISO 8601 texts of `datetime` and `date`
  come from outside and are the functions of a `Lib`. */
module Envelopes {
  import opened Prelude
  import opened CanonicalJson
  import opened JsonTheorems

  const EVENT_SCHEMA := "stock-tracker-xtp-event-v1"
  const SOURCE_NAME := "xtp"
  const MAX_FUTURE := 120_000_000

  const INSTANT_LIMIT := 3_652_059 * 86_400_000_000

  /** What a UTC `datetime` can hold, from 0001-01-01 to the last microsecond of 9999-12-31. */
  type Instant = t: int | 0 <= t < INSTANT_LIMIT

  /** `day` is the Shanghai date, which the last hours before the limit do not have. */
  datatype Lib = Lib(
    sha: string -> string,
    iso: Instant -> string,
    parseIso: string -> Option<Instant>,
    day: Instant -> Option<string>,
    parseDay: string -> Option<string>)

  /** What the library promises: hex digests, and texts that parse back. */
  ghost predicate LibOk(lib: Lib) {
    && (forall s :: ShaText(lib.sha(s)))
    && (forall t: Instant :: lib.parseIso(lib.iso(t)) == Some(t) && PlainText(lib.iso(t)))
    && (forall t: Instant | lib.day(t).Some? ::
          lib.parseDay(lib.day(t).value) == lib.day(t) && PlainText(lib.day(t).value))
  }

  datatype Envelope = Envelope(
    eventId: string,
    source: string,
    feedMode: string,
    market: string,
    symbol: string,
    eventType: string,
    tradingDay: string,
    exchangeTimestamp: Option<Instant>,
    providerTimestamp: Option<Instant>,
    receivedAt: Instant,
    sessionId: string,
    callbackSeq: int,
    providerSeq: Option<int>,
    rawPayloadSha256: string,
    payload: Json,
    schema: string)

  datatype ContractError =
    | WrongKeys | BadField | FutureTime | AfterReceived | WrongTradingDay | PayloadHash | EventIdHash

  // ------------------------------------------------------------------ field checks

  /** White space of `str.strip`. */
  predicate IsBlank(c: char) {
    var n := c as int;
    || 9 <= n <= 13 || 28 <= n <= 32 || n == 0x85 || n == 0xA0 || n == 0x1680
    || 0x2000 <= n <= 0x200A || n in {0x2028, 0x2029, 0x202F, 0x205F, 0x3000}
  }

  /** `_require_string` without a pattern. */
  predicate PlainText(s: string) {
    && 0 < |s| <= MAX_TEXT_LENGTH
    && !IsBlank(s[0]) && !IsBlank(s[|s| - 1])
    && forall i | 0 <= i < |s| :: !((s[i] as int) < 33 || s[i] as int == 127)
  }

  predicate ShaText(s: string) {
    |s| == 64 && forall i | 0 <= i < 64 :: '0' <= s[i] <= '9' || 'a' <= s[i] <= 'f'
  }

  predicate IdentifierText(s: string) {
    && 0 < |s| <= 128
    && forall i | 0 <= i < |s| ::
         || 'A' <= s[i] <= 'Z' || 'a' <= s[i] <= 'z' || '0' <= s[i] <= '9'
         || s[i] in "._:-"
  }

  predicate SymbolText(s: string) {
    && |s| == 9
    && (forall i | 0 <= i < 6 :: '0' <= s[i] <= '9')
    && (s[6..] == ".SH" || s[6..] == ".SZ")
  }

  predicate FeedModeOk(s: string) { s in {"SIMULATOR", "LEVEL1", "LEVEL2"} }

  predicate EventTypeOk(s: string) {
    s in {"MARKET_DATA", "ORDER_BOOK", "TRADE_TICK", "ORDER_TICK", "TRADING_STATUS", "HEARTBEAT", "CONNECTION"}
  }

  predicate FieldsOk(e: Envelope) {
    && e.schema == EVENT_SCHEMA
    && ShaText(e.eventId)
    && e.source == SOURCE_NAME
    && FeedModeOk(e.feedMode)
    && e.market == "A"
    && SymbolText(e.symbol)
    && EventTypeOk(e.eventType)
    && PlainText(e.tradingDay)
    && IdentifierText(e.sessionId)
    && 1 <= e.callbackSeq <= MAX_INTEGER
    && (e.providerSeq.Some? ==> 0 <= e.providerSeq.value <= MAX_INTEGER)
    && ShaText(e.rawPayloadSha256)
    && e.payload.Obj?
  }

  predicate NotFuture(t: Option<Instant>, now: int) { t.Some? ==> t.value - now <= MAX_FUTURE }

  /** No timestamp lies more than the tolerance after `now`. */
  predicate TimesOk(e: Envelope, now: int) {
    NotFuture(e.exchangeTimestamp, now) && NotFuture(e.providerTimestamp, now) && e.receivedAt - now <= MAX_FUTURE
  }

  predicate ReceivedLast(e: Envelope) {
    NotFuture(e.exchangeTimestamp, e.receivedAt) && NotFuture(e.providerTimestamp, e.receivedAt)
  }

  function SourceTime(e: Envelope): Instant {
    if e.exchangeTimestamp.Some? then e.exchangeTimestamp.value
    else if e.providerTimestamp.Some? then e.providerTimestamp.value
    else e.receivedAt
  }

  /** The trading day is the Shanghai date of the source time. */
  predicate DayOk(lib: Lib, e: Envelope) {
    lib.day(SourceTime(e)).Some? && lib.parseDay(e.tradingDay) == lib.day(SourceTime(e))
  }

  // -------------------------------------------------------------- identity and wire

  function TimeJson(lib: Lib, t: Option<Instant>): Json { if t.Some? then Str(lib.iso(t.value)) else Null }

  function IntJson(n: Option<int>): Json { if n.Some? then Int(n.value) else Null }

  /** `_identity_dict`. */
  function Identity(lib: Lib, e: Envelope): Json {
    Obj([
      Member("schema", Str(e.schema)),
      Member("source", Str(e.source)),
      Member("feed_mode", Str(e.feedMode)),
      Member("market", Str(e.market)),
      Member("symbol", Str(e.symbol)),
      Member("event_type", Str(e.eventType)),
      Member("trading_day", Str(e.tradingDay)),
      Member("exchange_timestamp", TimeJson(lib, e.exchangeTimestamp)),
      Member("provider_timestamp", TimeJson(lib, e.providerTimestamp)),
      Member("received_at", Str(lib.iso(e.receivedAt))),
      Member("session_id", Str(e.sessionId)),
      Member("callback_seq", Int(e.callbackSeq)),
      Member("provider_seq", IntJson(e.providerSeq)),
      Member("raw_payload_sha256", Str(e.rawPayloadSha256))
    ])
  }

  /** A received dict: its sixteen fields, when it has exactly those keys. */
  datatype Wire =
    | OtherKeys
    | Fields(schema: Json, eventId: Json, source: Json, feedMode: Json, market: Json, symbol: Json,
             eventType: Json, tradingDay: Json, exchangeTimestamp: Json, providerTimestamp: Json,
             receivedAt: Json, sessionId: Json, callbackSeq: Json, providerSeq: Json,
             rawPayloadSha256: Json, payload: Json)

  /** `as_dict`. */
  function AsDict(lib: Lib, e: Envelope): Wire {
    Fields(Str(e.schema), Str(e.eventId), Str(e.source), Str(e.feedMode), Str(e.market), Str(e.symbol),
           Str(e.eventType), Str(e.tradingDay), TimeJson(lib, e.exchangeTimestamp),
           TimeJson(lib, e.providerTimestamp), Str(lib.iso(e.receivedAt)), Str(e.sessionId),
           Int(e.callbackSeq), IntJson(e.providerSeq), Str(e.rawPayloadSha256), e.payload)
  }

  // ------------------------------------------------------------------- construction

  /** `__post_init__`: check a candidate and store its payload with sorted keys. */
  function PostInit(lib: Lib, e: Envelope, now: int): Result<Envelope, ContractError> {
    if !FieldsOk(e) then Err(BadField)
    else if !TimesOk(e, now) then Err(FutureTime)
    else if !ReceivedLast(e) then Err(AfterReceived)
    else if !DayOk(lib, e) then Err(WrongTradingDay)
    else match CanonicalBytes(e.payload)
      case None => Err(BadField)
      case Some(raw) =>
        match StrictLoads(raw)
        case Some(Obj(ps)) =>
          var stored := e.(payload := Obj(ps));
          if lib.sha(raw) != e.rawPayloadSha256 then Err(PayloadHash)
          else CheckIdentity(lib, stored)
        case _ => Err(BadField)
  }

  function CheckIdentity(lib: Lib, e: Envelope): Result<Envelope, ContractError> {
    match CanonicalBytes(Identity(lib, e))
    case None => Err(BadField)
    case Some(text) => if lib.sha(text) == e.eventId then Ok(e) else Err(EventIdHash)
  }

  /** `EventEnvelope.create`; the hash fields of `a` are ignored and computed. */
  function Create(lib: Lib, a: Envelope, now: int): Result<Envelope, ContractError> {
    match CanonicalBytes(a.payload)
    case None => Err(BadField)
    case Some(raw) =>
      var b := a.(schema := EVENT_SCHEMA, source := SOURCE_NAME, market := "A", rawPayloadSha256 := lib.sha(raw));
      match CanonicalBytes(Identity(lib, b))
      case None => Err(BadField)
      case Some(text) => PostInit(lib, b.(eventId := lib.sha(text)), now)
  }

  function ParseTime(lib: Lib, j: Json, now: int): Result<Instant, ContractError> {
    if j.Str? && PlainText(j.s) then
      match lib.parseIso(j.s)
      case Some(t) => if t - now <= MAX_FUTURE then Ok(t) else Err(FutureTime)
      case None => Err(BadField)
    else Err(BadField)
  }

  function ParseOptionalTime(lib: Lib, j: Json, now: int): Result<Option<Instant>, ContractError> {
    if j.Null? then Ok(None)
    else match ParseTime(lib, j, now)
      case Ok(t) => Ok(Some(t))
      case Err(r) => Err(r)
  }

  predicate PlainJson(j: Json) { j.Str? && PlainText(j.s) }

  predicate WireOk(w: Wire)
    requires w.Fields?
  {
    && PlainJson(w.schema) && PlainJson(w.eventId) && PlainJson(w.source) && PlainJson(w.feedMode)
    && PlainJson(w.market) && PlainJson(w.symbol) && SymbolText(w.symbol.s) && PlainJson(w.eventType)
    && PlainJson(w.tradingDay) && PlainJson(w.sessionId) && PlainJson(w.rawPayloadSha256)
    && w.payload.Obj? && w.callbackSeq.Int? && 1 <= w.callbackSeq.n <= MAX_INTEGER
    && (w.providerSeq.Null? || (w.providerSeq.Int? && 0 <= w.providerSeq.n <= MAX_INTEGER))
  }

  /** `from_dict`, with both hashes checked a second time at the end. */
  function FromDict(lib: Lib, w: Wire, now: int): Result<Envelope, ContractError> {
    if w.OtherKeys? then Err(WrongKeys)
    else if !WireOk(w) then Err(BadField)
    else match (ParseOptionalTime(lib, w.exchangeTimestamp, now), ParseOptionalTime(lib, w.providerTimestamp, now),
                ParseTime(lib, w.receivedAt, now))
      case (Ok(x), Ok(p), Ok(r)) =>
        var e := Envelope(w.eventId.s, w.source.s, w.feedMode.s, w.market.s, w.symbol.s, w.eventType.s,
                          w.tradingDay.s, x, p, r, w.sessionId.s, w.callbackSeq.n,
                          if w.providerSeq.Null? then None else Some(w.providerSeq.n),
                          w.rawPayloadSha256.s, w.payload, w.schema.s);
        Recheck(lib, PostInit(lib, e, now))
      case (Err(reason), _, _) => Err(reason)
      case (_, Err(reason), _) => Err(reason)
      case (_, _, Err(reason)) => Err(reason)
  }

  function Recheck(lib: Lib, r: Result<Envelope, ContractError>): Result<Envelope, ContractError> {
    match r
    case Err(reason) => Err(reason)
    case Ok(stored) =>
      match CanonicalBytes(stored.payload)
      case None => Err(BadField)
      case Some(raw) =>
        if lib.sha(raw) != stored.rawPayloadSha256 then Err(PayloadHash) else CheckIdentity(lib, stored)
  }

  // ----------------------------------------------------------------------- theorems

  /** Everything a constructed envelope satisfies that does not depend on the clock. */
  ghost predicate Built(lib: Lib, e: Envelope) {
    && FieldsOk(e)
    && ReceivedLast(e)
    && DayOk(lib, e)
    && IsValue(e.payload) && Valid(e.payload, 0) && Normalize(e.payload) == e.payload
    && lib.sha(CanonicalText(e.payload)) == e.rawPayloadSha256
    && lib.sha(CanonicalText(Identity(lib, e))) == e.eventId
  }

  lemma IsoText(lib: Lib, t: Instant)
    requires LibOk(lib)
    ensures lib.parseIso(lib.iso(t)) == Some(t) && PlainText(lib.iso(t))
  {
  }

  lemma PlainIsText(s: string)
    requires PlainText(s)
    ensures TextOk(s)
  {
  }

  lemma ShaPlain(s: string)
    requires ShaText(s)
    ensures PlainText(s)
  {
  }

  lemma IdentifierPlain(s: string)
    requires IdentifierText(s)
    ensures PlainText(s)
  {
  }

  lemma SymbolPlain(s: string)
    requires SymbolText(s)
    ensures PlainText(s)
  {
    assert s == s[..6] + s[6..];
  }

  lemma VisibleAsciiPlain(s: string)
    requires 0 < |s| <= 64 && forall i | 0 <= i < |s| :: '!' <= s[i] <= '~'
    ensures PlainText(s)
  {
  }

  lemma ConstantsPlain(s: string)
    requires FeedModeOk(s) || EventTypeOk(s) || s == EVENT_SCHEMA || s == SOURCE_NAME || s == "A"
    ensures PlainText(s)
  {
    hide PlainText;
    VisibleAsciiPlain(s);
  }

  lemma FieldsPlain(e: Envelope)
    requires FieldsOk(e)
    ensures PlainText(e.schema) && PlainText(e.source) && PlainText(e.feedMode) && PlainText(e.market)
    ensures PlainText(e.symbol) && PlainText(e.eventType) && PlainText(e.sessionId)
    ensures PlainText(e.rawPayloadSha256) && PlainText(e.eventId)
  {
    ConstantsPlain(e.schema);
    ConstantsPlain(e.source);
    ConstantsPlain(e.feedMode);
    ConstantsPlain(e.market);
    ConstantsPlain(e.eventType);
    SymbolPlain(e.symbol);
    IdentifierPlain(e.sessionId);
    ShaPlain(e.rawPayloadSha256);
    ShaPlain(e.eventId);
  }

  lemma IdentityKeysUnique(lib: Lib, e: Envelope)
    ensures UniqueKeys(Identity(lib, e).pairs)
  {
  }

  lemma FirstKeysOk(lib: Lib, e: Envelope)
    ensures forall i | 0 <= i < 5 :: KeyOk(Identity(lib, e).pairs[i].key)
  {
  }

  lemma MiddleKeysOk(lib: Lib, e: Envelope)
    ensures forall i | 5 <= i < 8 :: KeyOk(Identity(lib, e).pairs[i].key)
  {
  }

  lemma LaterKeysOk(lib: Lib, e: Envelope)
    ensures forall i | 8 <= i < 11 :: KeyOk(Identity(lib, e).pairs[i].key)
  {
  }

  lemma LastKeysOk(lib: Lib, e: Envelope)
    ensures forall i | 11 <= i < 14 :: KeyOk(Identity(lib, e).pairs[i].key)
  {
  }

  lemma IdentityKeysOk(lib: Lib, e: Envelope)
    ensures forall i | 0 <= i < 14 :: KeyOk(Identity(lib, e).pairs[i].key)
  {
    FirstKeysOk(lib, e);
    MiddleKeysOk(lib, e);
    LaterKeysOk(lib, e);
    LastKeysOk(lib, e);
  }

  ghost predicate Scalar(v: Json) {
    !v.Arr? && !v.Obj? && !v.Float? && (v.Str? ==> PlainText(v.s)) && (v.Int? ==> 0 <= v.n <= MAX_INTEGER)
  }

  lemma IdentityTimes(lib: Lib, e: Envelope)
    requires LibOk(lib)
    ensures Scalar(TimeJson(lib, e.exchangeTimestamp)) && Scalar(TimeJson(lib, e.providerTimestamp))
    ensures Scalar(Str(lib.iso(e.receivedAt)))
  {
    hide LibOk, PlainText;
    IsoText(lib, e.receivedAt);
    if e.exchangeTimestamp.Some? { IsoText(lib, e.exchangeTimestamp.value); }
    if e.providerTimestamp.Some? { IsoText(lib, e.providerTimestamp.value); }
  }

  lemma IdentityFieldValues(e: Envelope)
    requires FieldsOk(e)
    ensures Scalar(Str(e.schema)) && Scalar(Str(e.source)) && Scalar(Str(e.feedMode)) && Scalar(Str(e.market))
    ensures Scalar(Str(e.symbol)) && Scalar(Str(e.eventType)) && Scalar(Str(e.tradingDay)) && Scalar(Str(e.sessionId))
    ensures Scalar(Str(e.rawPayloadSha256)) && Scalar(Int(e.callbackSeq)) && Scalar(IntJson(e.providerSeq))
  {
    hide PlainText, ShaText, SymbolText, IdentifierText, FeedModeOk, EventTypeOk;
    FieldsPlain(e);
  }

  lemma IdentityValuesOk(lib: Lib, e: Envelope)
    requires LibOk(lib) && FieldsOk(e)
    ensures forall i | 0 <= i < 14 :: Scalar(Identity(lib, e).pairs[i].value)
  {
    hide Scalar, LibOk, FieldsOk, TimeJson, IntJson;
    IdentityTimes(lib, e);
    IdentityFieldValues(e);
  }

  lemma IdentityValid(lib: Lib, e: Envelope)
    requires LibOk(lib) && FieldsOk(e)
    ensures IsValue(Identity(lib, e)) && Valid(Identity(lib, e), 0)
  {
    IdentityKeysUnique(lib, e);
    IdentityKeysOk(lib, e);
    IdentityValuesOk(lib, e);
    ScalarsValid(Identity(lib, e).pairs);
  }

  lemma ScalarsValid(ps: seq<Member>)
    requires |ps| == 14 && UniqueKeys(ps) && forall i | 0 <= i < 14 :: KeyOk(ps[i].key)
    requires forall i | 0 <= i < 14 :: Scalar(ps[i].value)
    ensures IsValue(Obj(ps)) && Valid(Obj(ps), 0)
  {
    forall i | 0 <= i < 14 ensures Valid(ps[i].value, 1) {
      if ps[i].value.Str? { PlainIsText(ps[i].value.s); }
    }
  }

  /** Construction succeeds exactly on good fields and matching hashes, and then is `Built`. */
  lemma PostInitExact(lib: Lib, e: Envelope, now: int)
    requires LibOk(lib) && IsValue(e.payload)
    ensures PostInit(lib, e, now).Ok? <==>
              && FieldsOk(e) && TimesOk(e, now) && ReceivedLast(e)
              && DayOk(lib, e)
              && Valid(e.payload, 0)
              && lib.sha(CanonicalText(e.payload)) == e.rawPayloadSha256
              && lib.sha(CanonicalText(Identity(lib, e))) == e.eventId
    ensures PostInit(lib, e, now).Ok? ==>
              && PostInit(lib, e, now).value == e.(payload := Normalize(e.payload))
              && Built(lib, PostInit(lib, e, now).value)
  {
    CanonicalRoundTrip(e.payload);
    NormalizeKeeps(e.payload, 0);
    NormalizeIdempotent(e.payload);
    if FieldsOk(e) {
      IdentityValid(lib, e);
      var stored := e.(payload := Normalize(e.payload));
      assert Identity(lib, stored) == Identity(lib, e);
    }
  }

  lemma IdentityIgnoresId(lib: Lib, e: Envelope, id: string)
    ensures Identity(lib, e.(eventId := id)) == Identity(lib, e)
  {
  }

  /** The arguments of `create` with the constants and both hashes filled in. */
  function Stamped(lib: Lib, a: Envelope): Envelope {
    var b := a.(schema := EVENT_SCHEMA, source := SOURCE_NAME, market := "A",
                rawPayloadSha256 := lib.sha(CanonicalText(a.payload)));
    b.(eventId := lib.sha(CanonicalText(Identity(lib, b))))
  }

  lemma StampedHashes(lib: Lib, a: Envelope)
    ensures var c := Stamped(lib, a);
            && lib.sha(CanonicalText(c.payload)) == c.rawPayloadSha256
            && lib.sha(CanonicalText(Identity(lib, c))) == c.eventId
  {
    var b := a.(schema := EVENT_SCHEMA, source := SOURCE_NAME, market := "A",
                rawPayloadSha256 := lib.sha(CanonicalText(a.payload)));
    IdentityIgnoresId(lib, b, lib.sha(CanonicalText(Identity(lib, b))));
  }

  lemma CreateSteps(lib: Lib, a: Envelope, now: int)
    ensures var c := Stamped(lib, a);
            Create(lib, a, now)
            == if Valid(a.payload, 0) && Valid(Identity(lib, c), 0) then PostInit(lib, c, now) else Err(BadField)
  {
    hide Identity, CanonicalText, PostInit;
    var b := a.(schema := EVENT_SCHEMA, source := SOURCE_NAME, market := "A",
                rawPayloadSha256 := lib.sha(CanonicalText(a.payload)));
    IdentityIgnoresId(lib, b, lib.sha(CanonicalText(Identity(lib, b))));
  }

  /** `create` never trips over its own hashes: it accepts exactly the valid inputs. */
  lemma CreateExact(lib: Lib, a: Envelope, now: int)
    requires LibOk(lib) && IsValue(a.payload)
    ensures Create(lib, a, now).Ok? <==>
              && FeedModeOk(a.feedMode) && SymbolText(a.symbol) && EventTypeOk(a.eventType)
              && PlainText(a.tradingDay) && IdentifierText(a.sessionId)
              && 1 <= a.callbackSeq <= MAX_INTEGER
              && (a.providerSeq.Some? ==> 0 <= a.providerSeq.value <= MAX_INTEGER)
              && a.payload.Obj? && Valid(a.payload, 0)
              && TimesOk(a, now) && ReceivedLast(a)
              && DayOk(lib, a)
    ensures Create(lib, a, now).Ok? ==>
              && Built(lib, Create(lib, a, now).value)
              && Create(lib, a, now).value == Stamped(lib, a).(payload := Normalize(a.payload))
              && Equal(Create(lib, a, now).value.payload, a.payload)
  {
    var c := Stamped(lib, a);
    CreateSteps(lib, a, now);
    StampedHashes(lib, a);
    StampedTimes(lib, a, now);
    StampedFields(lib, a);
    hide Stamped, Create, Identity, CanonicalText, PostInit, FieldsOk, TimesOk, SymbolText, IdentifierText, PlainText;
    PostInitExact(lib, c, now);
    if FieldsOk(c) { IdentityValid(lib, c); }
    NormalizeIdempotent(a.payload);
    NormalizeKeeps(a.payload, 0);
    EqualIffNormalizeEqual(Normalize(a.payload), a.payload);
  }

  lemma StampedTimes(lib: Lib, a: Envelope, now: int)
    ensures var c := Stamped(lib, a);
            && c.payload == a.payload && c.tradingDay == a.tradingDay
            && (TimesOk(c, now) <==> TimesOk(a, now)) && (ReceivedLast(c) <==> ReceivedLast(a))
            && SourceTime(c) == SourceTime(a)
  {
  }

  /** What is left for the caller to get right: the fields that `create` does not fill in. */
  lemma StampedFields(lib: Lib, a: Envelope)
    requires LibOk(lib)
    ensures FieldsOk(Stamped(lib, a)) <==>
              && FeedModeOk(a.feedMode) && SymbolText(a.symbol) && EventTypeOk(a.eventType)
              && PlainText(a.tradingDay) && IdentifierText(a.sessionId)
              && 1 <= a.callbackSeq <= MAX_INTEGER
              && (a.providerSeq.Some? ==> 0 <= a.providerSeq.value <= MAX_INTEGER)
              && a.payload.Obj?
  {
  }

  /** Sending an envelope and reading it back is the identity, except that a clock that went
    back far enough refuses it. */
  lemma WireRoundTrip(lib: Lib, e: Envelope, now: int)
    requires LibOk(lib) && Built(lib, e)
    ensures FromDict(lib, AsDict(lib, e), now) == if TimesOk(e, now) then Ok(e) else Err(FutureTime)
  {
    hide LibOk, PlainText, ShaText, Valid, IsValue, CanonicalBytes, CanonicalText;
    var w := AsDict(lib, e);
    FieldsPlain(e);
    assert WireOk(w);
    ParseTimes(lib, e, now);
    if TimesOk(e, now) {
      PostInitExact(lib, e, now);
      IdentityValid(lib, e);
      assert Recheck(lib, PostInit(lib, e, now)) == Ok(e);
    }
  }

  lemma ParseTimes(lib: Lib, e: Envelope, now: int)
    requires LibOk(lib)
    ensures var w := AsDict(lib, e);
            && ParseOptionalTime(lib, w.exchangeTimestamp, now)
               == (if NotFuture(e.exchangeTimestamp, now) then Ok(e.exchangeTimestamp) else Err(FutureTime))
            && ParseOptionalTime(lib, w.providerTimestamp, now)
               == (if NotFuture(e.providerTimestamp, now) then Ok(e.providerTimestamp) else Err(FutureTime))
            && ParseTime(lib, w.receivedAt, now)
               == (if e.receivedAt - now <= MAX_FUTURE then Ok(e.receivedAt) else Err(FutureTime))
  {
    IsoText(lib, e.receivedAt);
    if e.exchangeTimestamp.Some? { IsoText(lib, e.exchangeTimestamp.value); }
    if e.providerTimestamp.Some? { IsoText(lib, e.providerTimestamp.value); }
  }

  /** Unless SHA-256 collides on their texts, two envelopes with one id are one envelope. */
  lemma IdDeterminesEnvelope(lib: Lib, e: Envelope, f: Envelope)
    requires LibOk(lib) && Built(lib, e) && Built(lib, f) && e.eventId == f.eventId
    requires var a, b := CanonicalText(Identity(lib, e)), CanonicalText(Identity(lib, f));
             lib.sha(a) == lib.sha(b) ==> a == b
    requires var a, b := CanonicalText(e.payload), CanonicalText(f.payload); lib.sha(a) == lib.sha(b) ==> a == b
    ensures e == f
  {
    IdentityValid(lib, e);
    IdentityValid(lib, f);
    CanonicalInjective(Identity(lib, e), Identity(lib, f));
    IdentityFields(lib, e, f);
    CanonicalInjective(e.payload, f.payload);
    EqualIffNormalizeEqual(e.payload, f.payload);
  }

  lemma EqualMember(ps: seq<Member>, qs: seq<Member>, i: nat)
    requires Equal(Obj(ps), Obj(qs)) && i < |ps| && ps[i].key == qs[i].key
    requires !ps[i].value.Arr? && !ps[i].value.Obj?
    ensures ps[i].value == qs[i].value
  {
    assert Equal(ps[i].value, qs[i].value);
  }

  ghost function IdentityPart(lib: Lib, e: Envelope, i: nat): Json
    requires i < 14
  {
    match i
    case 0 => Str(e.schema)
    case 1 => Str(e.source)
    case 2 => Str(e.feedMode)
    case 3 => Str(e.market)
    case 4 => Str(e.symbol)
    case 5 => Str(e.eventType)
    case 6 => Str(e.tradingDay)
    case 7 => TimeJson(lib, e.exchangeTimestamp)
    case 8 => TimeJson(lib, e.providerTimestamp)
    case 9 => Str(lib.iso(e.receivedAt))
    case 10 => Str(e.sessionId)
    case 11 => Int(e.callbackSeq)
    case 12 => IntJson(e.providerSeq)
    case _ => Str(e.rawPayloadSha256)
  }

  lemma IdentityParts(lib: Lib, e: Envelope)
    ensures forall i | 0 <= i < 14 ::
              var v := Identity(lib, e).pairs[i].value;
              v == IdentityPart(lib, e, i) && !v.Arr? && !v.Obj?
  {
  }

  lemma IdentityFields(lib: Lib, e: Envelope, f: Envelope)
    requires LibOk(lib) && Equal(Identity(lib, e), Identity(lib, f))
    ensures e.(eventId := f.eventId, payload := f.payload) == f
  {
    IdentityParts(lib, e);
    IdentityParts(lib, f);
    SameIdentityKeys(lib, e, f);
    forall i | 0 <= i < 14 ensures IdentityPart(lib, e, i) == IdentityPart(lib, f, i) {
      EqualMember(Identity(lib, e).pairs, Identity(lib, f).pairs, i);
    }
    PartsDetermine(lib, e, f);
  }

  lemma SameIdentityKeys(lib: Lib, e: Envelope, f: Envelope)
    ensures forall i | 0 <= i < 14 :: Identity(lib, e).pairs[i].key == Identity(lib, f).pairs[i].key
  {
  }

  lemma PartsDetermine(lib: Lib, e: Envelope, f: Envelope)
    requires LibOk(lib)
    requires forall i | 0 <= i < 14 :: IdentityPart(lib, e, i) == IdentityPart(lib, f, i)
    ensures e.(eventId := f.eventId, payload := f.payload) == f
  {
    assert IdentityPart(lib, e, 0) == IdentityPart(lib, f, 0);
    assert IdentityPart(lib, e, 1) == IdentityPart(lib, f, 1);
    assert IdentityPart(lib, e, 2) == IdentityPart(lib, f, 2);
    assert IdentityPart(lib, e, 3) == IdentityPart(lib, f, 3);
    assert IdentityPart(lib, e, 4) == IdentityPart(lib, f, 4);
    assert IdentityPart(lib, e, 5) == IdentityPart(lib, f, 5);
    assert IdentityPart(lib, e, 6) == IdentityPart(lib, f, 6);
    assert IdentityPart(lib, e, 7) == IdentityPart(lib, f, 7);
    assert IdentityPart(lib, e, 8) == IdentityPart(lib, f, 8);
    assert IdentityPart(lib, e, 9) == IdentityPart(lib, f, 9);
    assert IdentityPart(lib, e, 10) == IdentityPart(lib, f, 10);
    assert IdentityPart(lib, e, 11) == IdentityPart(lib, f, 11);
    assert IdentityPart(lib, e, 12) == IdentityPart(lib, f, 12);
    assert IdentityPart(lib, e, 13) == IdentityPart(lib, f, 13);
    TimeJsonInjective(lib, e.exchangeTimestamp, f.exchangeTimestamp);
    TimeJsonInjective(lib, e.providerTimestamp, f.providerTimestamp);
    TimeJsonInjective(lib, Some(e.receivedAt), Some(f.receivedAt));
  }

  lemma TimeJsonInjective(lib: Lib, s: Option<Instant>, t: Option<Instant>)
    requires LibOk(lib)
    ensures TimeJson(lib, s) == TimeJson(lib, t) ==> s == t
  {
    if s.Some? && t.Some? {
      IsoText(lib, s.value);
      IsoText(lib, t.value);
    }
  }
}
