/** One bounded audit record (stock_tracker/api/audit.py). */
module AuditRecords {
  import opened Prelude
  import opened Numerals
  import opened CanonicalJson
  import opened JsonTheorems

  const AUDIT_SCHEMA := "stock-tracker-remote-write-audit-v1"
  const INVALID_ROUTE := "INVALID_ROUTE"

  const KNOWN_ROUTES: seq<string> := [
    "/api/brief/today", "/api/config", "/api/events", "/api/overview", "/api/monitor/summary",
    "/api/monitor/data-link", "/api/monitor/rules", "/api/monitor/inbox", "/api/monitor/replay",
    "/api/monitor/outbox", "/api/portfolio", "/api/portfolio/positions", "/api/portfolio/profile",
    "/api/positions", "/api/provider_health", "/api/radar", "/api/runtime/health", "/api/sectors",
    "/api/stream", "/api/watch", "/api/watch/remove", "/api/watchlist"]

  const TEMPLATES: seq<string> := [
    "/api/portfolio/positions/{position_id}", "/api/signal/{signal_id}", "/api/quote/{symbol}",
    "/api/monitor/rules/{rule_id}", "/api/monitor/inbox/{inbox_id}/transition",
    "/api/{unclassified-write}", "/api/{other}"]

  // ------------------------------------------------------------------------ routes

  /** `text.split(mark, 1)[0]`. */
  function Before(text: string, mark: char): string {
    if text == "" || text[0] == mark then "" else [text[0]] + Before(text[1..], mark)
  }

  /** The pattern `^prefix[^/]+suffix$`. */
  predicate OneSegment(route: string, prefix: string, suffix: string) {
    && |prefix| + |suffix| < |route|
    && prefix <= route
    && route[|route| - |suffix|..] == suffix
    && forall i | |prefix| <= i < |route| - |suffix| :: route[i] != '/'
  }

  function Upper(s: string): (r: string)
    ensures |r| == |s|
  {
    if s == "" then ""
    else [if 'a' <= s[0] <= 'z' then s[0] - 32 as char else s[0]] + Upper(s[1..])
  }

  /** `route_template`; `path` is absent when it is not a string. */
  function RouteTemplate(method_: string, path: Option<string>): string {
    if path.None? || path.value == "" || path.value[0] != '/' then INVALID_ROUTE
    else
      var route := Before(Before(path.value, '?'), '#');
      if |route| > 256 then INVALID_ROUTE
      else if exists i | 0 <= i < |route| :: (route[i] as int) < 32 || route[i] as int == 127 then INVALID_ROUTE
      else if OneSegment(route, "/api/portfolio/positions/", "") then TEMPLATES[0]
      else if OneSegment(route, "/api/signal/", "") then TEMPLATES[1]
      else if OneSegment(route, "/api/quote/", "") then TEMPLATES[2]
      else if OneSegment(route, "/api/monitor/rules/", "") then TEMPLATES[3]
      else if OneSegment(route, "/api/monitor/inbox/", "/transition") then TEMPLATES[4]
      else if route in KNOWN_ROUTES then route
      else if Upper(method_) in ["POST", "PUT", "PATCH", "DELETE"] then TEMPLATES[5]
      else TEMPLATES[6]
  }

  /** Whatever the caller sends, only one of a fixed list of texts is recorded. */
  lemma RouteIsFixed(method_: string, path: Option<string>)
    ensures RouteTemplate(method_, path) in KNOWN_ROUTES + TEMPLATES + [INVALID_ROUTE]
  {
    var all := KNOWN_ROUTES + TEMPLATES + [INVALID_ROUTE];
    assert forall t | t in TEMPLATES :: t in all;
    assert all[|all| - 1] == INVALID_ROUTE;
  }

  // -------------------------------------------------------------------------- text

  predicate Visible(s: string) { forall i | 0 <= i < |s| :: ' ' <= s[i] <= '~' }

  function KeepVisible(s: string): (r: string)
    ensures Visible(r) && |r| <= |s|
  {
    if s == "" then "" else (if ' ' <= s[0] <= '~' then [s[0]] else "") + KeepVisible(s[1..])
  }

  /** `strip` of a text whose only white space is the blank. */
  function Strip(s: string): (r: string)
    ensures Visible(s) ==> Visible(r)
    ensures r != "" ==> r[0] != ' ' && r[|r| - 1] != ' '
    decreases |s|
  {
    if s == "" then ""
    else if s[0] == ' ' then Strip(s[1..])
    else if s[|s| - 1] == ' ' then Strip(s[..|s| - 1])
    else s
  }

  /** `_bounded_text`. */
  function BoundedText(value: Option<string>, default: string, maximum: nat): string {
    if value.None? then default
    else
      var cleaned := Strip(KeepVisible(value.value));
      var text := if cleaned == "" then default else cleaned;
      if |text| <= maximum then text else text[..maximum]
  }

  lemma BoundedTextFits(value: Option<string>, default: string, maximum: nat)
    requires Visible(default) && 0 < |default| <= maximum
    ensures var r := BoundedText(value, default, maximum); Visible(r) && 0 < |r| <= maximum
  {
  }

  function Status(value: Option<int>): (r: nat)
    ensures r <= 999
  {
    if value.Some? && 0 <= value.value <= 999 then value.value else 0
  }

  // ------------------------------------------------------------------------ records

  /** The keyword arguments that matter; absent means missing or not of the right type. */
  datatype Values = Values(
    requestId: Option<string>, event: Option<string>, method_: Option<string>, path: Option<string>,
    clientBoundary: Option<string>, origin: Option<string>, outcome: Option<string>,
    status: Option<int>, code: Option<string>)

  /** The cleaned fields of one record. */
  datatype Fields = Fields(
    recordedAt: string, requestId: string, event: string, method_: string, route: string,
    clientBoundary: string, origin: string, outcome: string, status: nat, code: string)

  function Clean(v: Values, recordedAt: string, newId: string): Fields {
    var verb := Upper(BoundedText(v.method_, "UNKNOWN", 16));
    Fields(recordedAt,
           BoundedText(v.requestId, newId, 64),
           Upper(BoundedText(v.event, "REMOTE_API", 64)),
           verb,
           RouteTemplate(verb, v.path),
           BoundedText(v.clientBoundary, "UNKNOWN", 64),
           BoundedText(v.origin, "NONE", 512),
           Upper(BoundedText(v.outcome, "UNKNOWN", 64)),
           Status(v.status),
           BoundedText(v.code, "NONE", 128))
  }

  function RecordPairs(f: Fields): seq<Member> {
    [
      Member("schema", Str(AUDIT_SCHEMA)),
      Member("recorded_at", Str(f.recordedAt)),
      Member("request_id", Str(f.requestId)),
      Member("event", Str(f.event)),
      Member("method", Str(f.method_)),
      Member("route", Str(f.route)),
      Member("client_boundary", Str(f.clientBoundary)),
      Member("origin", Str(f.origin)),
      Member("outcome", Str(f.outcome)),
      Member("status", Int(f.status)),
      Member("code", Str(f.code))
    ]
  }

  /** The line `record` appends. All its characters are ASCII, so escaping is that of plain JSON. */
  function RecordLine(v: Values, recordedAt: string, newId: string): string {
    CanonicalText(Obj(RecordPairs(Clean(v, recordedAt, newId)))) + "\n"
  }

  ghost predicate SmallValue(v: Json) {
    (v.Str? && |v.s| <= 512) || (v.Int? && 0 <= v.n <= 999)
  }

  ghost predicate Small(m: Member) { |m.key| <= 16 && SmallValue(m.value) }

  lemma {:induction false} EscapeSize(s: string)
    ensures |Escape(s)| <= 6 * |s|
  {
    if s != "" {
      EscapeSize(s[1..]);
      assert |EscapeChar(s[0])| <= 6;
    }
  }

  lemma StatusSize(n: nat)
    requires n <= 999
    ensures |NatText(n)| <= 3
  {
    if n >= 10 {
      var t := n / 10;
      assert NatText(n) == NatText(t) + [DigitChar(n % 10)];
      if t >= 10 {
        assert t / 10 < 10;
        assert NatText(t) == NatText(t / 10) + [DigitChar(t % 10)];
      }
    }
  }

  lemma {:induction false} PairsSize(ps: seq<Member>)
    requires forall i | 0 <= i < |ps| :: Small(ps[i])
    ensures |EmitPairs(ps)| <= 3200 * |ps|
  {
    if ps != [] {
      var m := ps[0];
      assert Small(m);
      PairsSize(ps[1..]);
      EscapeSize(m.key);
      if m.value.Str? { EscapeSize(m.value.s); } else { StatusSize(m.value.n); }
    }
  }

  lemma RouteSmall(method_: string, path: Option<string>)
    ensures |RouteTemplate(method_, path)| <= 256
  {
    hide OneSegment, Upper, Before;
  }

  ghost predicate FieldsSmall(f: Fields) {
    && |f.recordedAt| <= 512 && |f.requestId| <= 512 && |f.event| <= 512 && |f.method_| <= 512
    && |f.route| <= 512 && |f.clientBoundary| <= 512 && |f.origin| <= 512 && |f.outcome| <= 512
    && f.status <= 999 && |f.code| <= 512
  }

  lemma CleanSmall(v: Values, recordedAt: string, newId: string)
    requires |recordedAt| <= 64 && Visible(newId) && 0 < |newId| <= 64
    ensures FieldsSmall(Clean(v, recordedAt, newId))
  {
    BoundedTextFits(v.method_, "UNKNOWN", 16);
    BoundedTextFits(v.requestId, newId, 64);
    BoundedTextFits(v.event, "REMOTE_API", 64);
    BoundedTextFits(v.clientBoundary, "UNKNOWN", 64);
    BoundedTextFits(v.origin, "NONE", 512);
    BoundedTextFits(v.outcome, "UNKNOWN", 64);
    BoundedTextFits(v.code, "NONE", 128);
    RouteSmall(Upper(BoundedText(v.method_, "UNKNOWN", 16)), v.path);
  }

  lemma PairsSmall(f: Fields)
    requires FieldsSmall(f)
    ensures forall i | 0 <= i < |RecordPairs(f)| :: Small(RecordPairs(f)[i])
  {
  }

  lemma {:induction false} NormalizedSmall(ps: seq<Member>)
    requires forall i | 0 <= i < |ps| :: Small(ps[i])
    ensures forall i | 0 <= i < |NormalizePairs(ps)| :: Small(NormalizePairs(ps)[i])
  {
    var qs := NormalizePairs(ps);
    NormalizedMembers(ps);
    forall j | 0 <= j < |qs| ensures Small(qs[j]) {
      assert qs[j] in qs;
      var i :| 0 <= i < |ps| && qs[j] == Norm(ps[i]);
      assert Small(ps[i]);
    }
  }

  /** No input makes a record longer than the smallest allowed log file. */
  lemma RecordBounded(v: Values, recordedAt: string, newId: string)
    requires |recordedAt| <= 64 && Visible(newId) && 0 < |newId| <= 64
    ensures |RecordLine(v, recordedAt, newId)| <= 64 * 1024
  {
    var f := Clean(v, recordedAt, newId);
    CleanSmall(v, recordedAt, newId);
    PairsSmall(f);
    NormalizedSmall(RecordPairs(f));
    PairsSize(NormalizePairs(RecordPairs(f)));
  }
}
