/** Libraries that keep the promises of `LibOk`, and envelopes built with them: what the theorems
  assume is there. */
module SampleLibrary {
  import opened Prelude
  import opened Numerals
  import opened CanonicalJson
  import opened JsonTheorems
  import opened Envelopes

  /** Decimal counters stand for the ISO texts, one fixed digest for SHA-256. */
  function Counting(): Lib {
    Lib(s => seq(64, _ => '0'),
        (t: Instant) => NatText(t),
        s => ParseCounter(s),
        (t: Instant) => Some(NatText(t / 86_400_000_000)),
        s => Some(s))
  }

  function ParseCounter(s: string): Option<Instant> {
    if s == "" || !AllDigits(s) || NatValue(s) >= INSTANT_LIMIT then None else Some(NatValue(s))
  }

  lemma CounterPlain(n: nat)
    requires n < INSTANT_LIMIT
    ensures PlainText(NatText(n))
  {
    assert Ten(1) == 10 && Ten(2) == 100 && Ten(3) == 1000;
    TenAdd(3, 3);
    TenAdd(6, 6);
    TenAdd(12, 6);
    TextLength(n, 18);
  }

  lemma CountingOk()
    ensures LibOk(Counting())
  {
    var lib := Counting();
    forall t: Instant ensures lib.parseIso(lib.iso(t)) == Some(t) && PlainText(lib.iso(t)) {
      ValueOfText(t);
      CounterPlain(t);
    }
    forall t: Instant ensures PlainText(lib.day(t).value) {
      CounterPlain(t / 86_400_000_000);
    }
  }

  /** Every number, session, symbol and instant with a trading day has a built envelope. */
  lemma EnvelopeExists(lib: Lib, t: Instant, session: string, symbol: string, n: int) returns (e: Envelope)
    requires LibOk(lib) && lib.day(t).Some? && IdentifierText(session) && SymbolText(symbol) && 1 <= n <= MAX_INTEGER
    ensures Built(lib, e) && e.callbackSeq == n && e.sessionId == session && e.symbol == symbol
    ensures e.receivedAt == t && e.feedMode == "SIMULATOR"
  {
    var a := Envelope("", "", "SIMULATOR", "A", symbol, "MARKET_DATA", lib.day(t).value, None, None, t,
                      session, n, None, "", Obj([]), "");
    assert IsValue(a.payload) && Valid(a.payload, 0);
    CreateExact(lib, a, t);
    e := Create(lib, a, t).value;
  }

  // ------------------------------------------------------------ as many ids as one likes

  /** A number as 64 hexadecimal digits, filled up with a digit that is not decimal. */
  function Digest(k: nat): (r: string)
    ensures ShaText(r)
  {
    var t := NatText(k);
    if |t| <= 64 then t + seq(64 - |t|, _ => 'a') else seq(64, _ => '0')
  }

  lemma DigestDigits(k: nat)
    requires k < Ten(64)
    ensures Digits(Digest(k)).0 == NatText(k)
  {
    hide Ten, Digits, NatText, ShaText;
    var t := NatText(k);
    TextLength(k, 64);
    DigitsAll(t);
    DigitsThen(t, seq(64 - |t|, _ => 'a'));
  }

  lemma DigestInjective(i: nat, j: nat)
    requires i < Ten(64) && j < Ten(64) && Digest(i) == Digest(j)
    ensures i == j
  {
    hide Digest, Ten;
    DigestDigits(i);
    DigestDigits(j);
    ValueOfText(i);
    ValueOfText(j);
  }

  function IndexIn(texts: seq<string>, s: string): (k: nat)
    ensures k <= |texts| && (k < |texts| ==> texts[k] == s)
    ensures k == |texts| ==> s !in texts
  {
    if texts == [] then 0
    else if texts[0] == s then 0
    else 1 + IndexIn(texts[1..], s)
  }

  /** Like `Counting`, with a digest that tells the given texts apart. */
  function Indexing(texts: seq<string>): Lib { Counting().(sha := s => Digest(IndexIn(texts, s))) }

  lemma IndexingOk(texts: seq<string>)
    ensures LibOk(Indexing(texts))
  {
    hide IndexIn, NatText, Digest, PlainText, INSTANT_LIMIT;
    CountingOk();
    var lib, other := Indexing(texts), Counting();
    assert lib.iso == other.iso && lib.parseIso == other.parseIso && lib.day == other.day;
    assert forall s :: lib.sha(s) == Digest(IndexIn(texts, s));
  }

  predicate DraftOk(session: string, symbol: string, n: int) {
    IdentifierText(session) && SymbolText(symbol) && 1 <= n <= MAX_INTEGER
  }

  /** A market-data envelope with an empty payload. */
  function Draft(t: Instant, session: string, symbol: string, n: int, id: string, raw: string): Envelope {
    Envelope(id, SOURCE_NAME, "SIMULATOR", "A", symbol, "MARKET_DATA", NatText(t / 86_400_000_000), None, None, t,
             session, n, None, raw, Obj([]), EVENT_SCHEMA)
  }

  lemma DraftFields(t: Instant, session: string, symbol: string, n: int, id: string, raw: string)
    requires DraftOk(session, symbol, n) && ShaText(id) && ShaText(raw)
    ensures var e := Draft(t, session, symbol, n, id, raw);
            && FieldsOk(e) && ReceivedLast(e) && SourceTime(e) == t
            && IsValue(e.payload) && Valid(e.payload, 0) && Normalize(e.payload) == e.payload
  {
    hide SymbolText, IdentifierText, ShaText, PlainText, NatText;
    CounterPlain(t / 86_400_000_000);
  }

  function IdentityText(t: Instant, session: string, symbol: string, n: int, raw: string): string {
    CanonicalText(Identity(Counting(), Draft(t, session, symbol, n, raw, raw)))
  }

  /** The texts to hash of drafts with different numbers differ, and none is that of `{}`. */
  lemma IdentityTexts(t: Instant, session: string, symbol: string, n: int, m: int, raw: string)
    requires DraftOk(session, symbol, n) && DraftOk(session, symbol, m) && ShaText(raw)
    ensures n != m ==> IdentityText(t, session, symbol, n, raw) != IdentityText(t, session, symbol, m, raw)
    ensures IdentityText(t, session, symbol, n, raw) != CanonicalText(Obj([]))
  {
    hide CanonicalText, Counting, FieldsOk, Valid, UniqueKeys, Identity, LibOk;
    var lib := Counting();
    var d, e := Draft(t, session, symbol, n, raw, raw), Draft(t, session, symbol, m, raw, raw);
    CountingOk();
    DraftFields(t, session, symbol, n, raw, raw);
    DraftFields(t, session, symbol, m, raw, raw);
    IdentityValid(lib, d);
    IdentityValid(lib, e);
    CanonicalInjective(Identity(lib, d), Identity(lib, e));
    CanonicalInjective(Identity(lib, d), Obj([]));
    IdentityNotEmpty(lib, d);
    if Equal(Identity(lib, d), Identity(lib, e)) {
      IdentityFields(lib, d, e);
    }
  }

  lemma IdentityNotEmpty(lib: Lib, e: Envelope)
    ensures !Equal(Identity(lib, e), Obj([])) && IsValue(Obj([]))
  {
    assert |Identity(lib, e).pairs| == 14;
  }

  function IdentityTextsOf(t: Instant, session: string, symbol: string, numbers: seq<int>, raw: string)
    : (texts: seq<string>)
    ensures |texts| == |numbers|
    ensures forall i | 0 <= i < |numbers| :: texts[i] == IdentityText(t, session, symbol, numbers[i], raw)
  {
    seq(|numbers|, i requires 0 <= i < |numbers| => IdentityText(t, session, symbol, numbers[i], raw))
  }

  lemma BuiltDraft(lib: Lib, t: Instant, session: string, symbol: string, n: int, id: string, raw: string)
    requires DraftOk(session, symbol, n) && ShaText(id) && ShaText(raw) && LibOk(lib)
    requires lib.iso == Counting().iso && lib.day == Counting().day && lib.parseDay == Counting().parseDay
    requires lib.sha(CanonicalText(Obj([]))) == raw && lib.sha(IdentityText(t, session, symbol, n, raw)) == id
    ensures Built(lib, Draft(t, session, symbol, n, id, raw))
  {
    hide CanonicalText, FieldsOk, Valid, IsValue, LibOk, NatText;
    var e := Draft(t, session, symbol, n, id, raw);
    DraftFields(t, session, symbol, n, id, raw);
    SameIdentity(lib, Counting(), e, Draft(t, session, symbol, n, raw, raw));
    assert lib.day(t) == Some(NatText(t / 86_400_000_000)) == lib.parseDay(e.tradingDay);
  }

  lemma SameIdentity(lib: Lib, other: Lib, e: Envelope, f: Envelope)
    requires lib.iso == other.iso && e.(eventId := f.eventId) == f
    ensures Identity(lib, e) == Identity(other, f)
  {
  }

  /** For any different numbers there are a library and envelopes with just these numbers, no two
    of which share an id. */
  lemma EnvelopesWith(t: Instant, session: string, symbol: string, numbers: seq<int>)
    returns (lib: Lib, es: seq<Envelope>)
    requires |numbers| < Ten(64) && forall i | 0 <= i < |numbers| :: DraftOk(session, symbol, numbers[i])
    requires forall i, j | 0 <= i < j < |numbers| :: numbers[i] != numbers[j]
    ensures LibOk(lib) && |es| == |numbers|
    ensures forall i | 0 <= i < |es| ::
              && Built(lib, es[i]) && es[i].callbackSeq == numbers[i] && es[i].receivedAt == t
              && es[i].sessionId == session && es[i].symbol == symbol && es[i].feedMode == "SIMULATOR"
              && es[i].exchangeTimestamp == None && es[i].providerTimestamp == None && es[i].providerSeq == None
    ensures forall i, j | 0 <= i < j < |es| :: es[i].eventId != es[j].eventId
  {
    hide CanonicalText, IdentityText, Built, LibOk, Digest, IndexIn, NatText, DraftOk, Ten;
    var raw := Digest(|numbers|);
    var texts := IdentityTextsOf(t, session, symbol, numbers, raw);
    lib := Indexing(texts);
    IndexingOk(texts);
    es := seq(|numbers|, i requires 0 <= i < |numbers| => Draft(t, session, symbol, numbers[i], Digest(i), raw));
    NotHashed(t, session, symbol, numbers, raw);
    forall i | 0 <= i < |es| ensures Built(lib, es[i]) {
      TextIndex(t, session, symbol, numbers, raw, i);
      BuiltDraft(lib, t, session, symbol, numbers[i], Digest(i), raw);
    }
    forall i, j | 0 <= i < j < |es| ensures es[i].eventId != es[j].eventId {
      if Digest(i) == Digest(j) {
        DigestInjective(i, j);
      }
    }
  }

  lemma NotHashed(t: Instant, session: string, symbol: string, numbers: seq<int>, raw: string)
    requires ShaText(raw) && forall i | 0 <= i < |numbers| :: DraftOk(session, symbol, numbers[i])
    ensures IndexIn(IdentityTextsOf(t, session, symbol, numbers, raw), CanonicalText(Obj([]))) == |numbers|
  {
    hide CanonicalText, IdentityText;
    var texts := IdentityTextsOf(t, session, symbol, numbers, raw);
    var k := IndexIn(texts, CanonicalText(Obj([])));
    if k < |numbers| {
      IdentityTexts(t, session, symbol, numbers[k], numbers[k], raw);
    }
  }

  lemma TextIndex(t: Instant, session: string, symbol: string, numbers: seq<int>, raw: string, i: nat)
    requires ShaText(raw) && i < |numbers| && forall i | 0 <= i < |numbers| :: DraftOk(session, symbol, numbers[i])
    requires forall i, j | 0 <= i < j < |numbers| :: numbers[i] != numbers[j]
    ensures var texts := IdentityTextsOf(t, session, symbol, numbers, raw); IndexIn(texts, texts[i]) == i
  {
    hide IdentityText, DraftOk;
    var texts := IdentityTextsOf(t, session, symbol, numbers, raw);
    var k := IndexIn(texts, texts[i]);
    assert texts[i] in texts;
    if k != i {
      IdentityTexts(t, session, symbol, numbers[k], numbers[i], raw);
    }
  }
}
