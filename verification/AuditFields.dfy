/** What an audit record says: which route, which text and which value stands under which key
  (stock_tracker/api/audit.py). */
module AuditFields {
  import opened Prelude
  import opened CanonicalJson
  import opened JsonTheorems
  import opened AuditRecords

  // ------------------------------------------------------------------------- routes

  /** `prefix`, one path segment, `suffix`. */
  ghost predicate SegmentRoute(route: string, prefix: string, suffix: string) {
    exists segment: string :: route == prefix + segment + suffix && segment != "" && '/' !in segment
  }

  lemma OneSegmentExact(route: string, prefix: string, suffix: string)
    ensures OneSegment(route, prefix, suffix) <==> SegmentRoute(route, prefix, suffix)
  {
    if OneSegment(route, prefix, suffix) {
      var segment := route[|prefix|..|route| - |suffix|];
      assert route == prefix + segment + suffix;
    }
    if segment: string :| route == prefix + segment + suffix && segment != "" && '/' !in segment {
      assert route[..|prefix|] == prefix && route[|route| - |suffix|..] == suffix;
      forall i | |prefix| <= i < |route| - |suffix| ensures route[i] != '/' {
        assert route[i] == segment[i - |prefix|];
      }
    }
  }

  ghost predicate Control(c: char) { c as int <= 31 || c as int == 127 }

  /** The route template of a path without query and fragment. */
  ghost predicate TemplateOf(verb: string, route: string, template: string) {
    if |route| > 256 || exists i | 0 <= i < |route| :: Control(route[i]) then template == "INVALID_ROUTE"
    else if SegmentRoute(route, "/api/portfolio/positions/", "") then
      template == "/api/portfolio/positions/{position_id}"
    else if SegmentRoute(route, "/api/signal/", "") then template == "/api/signal/{signal_id}"
    else if SegmentRoute(route, "/api/quote/", "") then template == "/api/quote/{symbol}"
    else if SegmentRoute(route, "/api/monitor/rules/", "") then template == "/api/monitor/rules/{rule_id}"
    else if SegmentRoute(route, "/api/monitor/inbox/", "/transition") then
      template == "/api/monitor/inbox/{inbox_id}/transition"
    else if route in KNOWN_ROUTES then template == route
    else if Upper(verb) == "POST" || Upper(verb) == "PUT" || Upper(verb) == "PATCH" || Upper(verb) == "DELETE" then
      template == "/api/{unclassified-write}"
    else template == "/api/{other}"
  }

  lemma {:induction false} BeforeMark(a: string, mark: char, b: string)
    requires mark !in a
    ensures Before(a, mark) == a && Before(a + [mark] + b, mark) == a
  {
    if a == "" {
      assert "" + [mark] + b == [mark] + b;
    } else {
      BeforeMark(a[1..], mark, b);
      assert (a + [mark] + b)[1..] == a[1..] + [mark] + b;
    }
  }

  /** The texts that follow a path: nothing, a query, or a fragment. */
  ghost predicate Follows(rest: string) { rest == "" || rest[0] == '?' || rest[0] == '#' }

  lemma RouteFound(route: string, rest: string)
    requires '?' !in route && '#' !in route && Follows(rest)
    ensures Before(Before(route + rest, '?'), '#') == route
  {
    hide Before;
    if rest == "" {
      assert route + rest == route;
      BeforeMark(route, '?', "");
      BeforeMark(route, '#', "");
    } else if rest[0] == '?' {
      assert route + rest == route + ['?'] + rest[1..];
      BeforeMark(route, '?', rest[1..]);
      BeforeMark(route, '#', "");
    } else {
      FragmentCut(route, rest);
    }
  }

  lemma FragmentCut(route: string, rest: string)
    requires '?' !in route && '#' !in route && rest != "" && rest[0] == '#'
    ensures Before(Before(route + rest, '?'), '#') == route
  {
    hide Before;
    var all := route + rest;
    if '?' in all {
      var i := FirstMark(all, '?');
      assert i > |route|;
      assert all == all[..i] + ['?'] + all[i + 1..];
      BeforeMark(all[..i], '?', all[i + 1..]);
      assert all[..i] == route + ['#'] + all[|route| + 1..i];
      BeforeMark(route, '#', all[|route| + 1..i]);
    } else {
      BeforeMark(all, '?', "");
      assert all == route + ['#'] + rest[1..];
      BeforeMark(route, '#', rest[1..]);
    }
  }

  lemma FirstMark(s: string, mark: char) returns (i: nat)
    requires mark in s
    ensures i < |s| && s[i] == mark && mark !in s[..i]
  {
    i := 0;
    while s[i] != mark
      invariant i < |s| && mark !in s[..i] && mark in s[i..]
      decreases |s| - i
    {
      assert s[i..] == [s[i]] + s[i + 1..];
      assert s[..i + 1] == s[..i] + [s[i]];
      i := i + 1;
    }
  }

  /** The route of every absolute path: query and fragment are dropped, one-segment routes become
    their template, known routes stand for themselves, and the rest is sorted by the verb. */
  lemma RouteExact(verb: string, route: string, rest: string)
    requires route != "" && route[0] == '/' && '?' !in route && '#' !in route && Follows(rest)
    ensures TemplateOf(verb, route, RouteTemplate(verb, Some(route + rest)))
  {
    hide Before, Upper, OneSegment, SegmentRoute, KNOWN_ROUTES;
    RouteFound(route, rest);
    OneSegmentExact(route, "/api/portfolio/positions/", "");
    OneSegmentExact(route, "/api/signal/", "");
    OneSegmentExact(route, "/api/quote/", "");
    OneSegmentExact(route, "/api/monitor/rules/", "");
    OneSegmentExact(route, "/api/monitor/inbox/", "/transition");
  }

  lemma NoRoute(verb: string, path: Option<string>)
    requires path.None? || path.value == "" || path.value[0] != '/'
    ensures RouteTemplate(verb, path) == "INVALID_ROUTE"
  {
  }

  // -------------------------------------------------------------------------- texts

  ghost predicate Printable(c: char) { 32 <= c as int < 127 }

  /** Exactly the printable ASCII characters are kept, in their order. */
  lemma {:induction false} KeepsPrintable(a: string, b: string)
    ensures KeepVisible(a + b) == KeepVisible(a) + KeepVisible(b)
  {
    hide KeepVisible;
    if a == "" {
      KeepNothing();
      assert a + b == b;
      assert "" + KeepVisible(b) == KeepVisible(b);
    } else {
      KeepsPrintable(a[1..], b);
      KeepCons(a);
      KeepCons(a + b);
      assert (a + b)[0] == a[0] && (a + b)[1..] == a[1..] + b;
      Regroup(KeepVisible([a[0]]), KeepVisible(a[1..]), KeepVisible(b));
    }
  }

  lemma KeepNothing()
    ensures KeepVisible("") == ""
  {
  }

  lemma Regroup(a: string, b: string, c: string)
    ensures a + (b + c) == a + b + c
  {
  }

  lemma KeepCons(s: string)
    requires s != ""
    ensures KeepVisible(s) == KeepVisible([s[0]]) + KeepVisible(s[1..])
  {
    KeepsOne(s[0]);
  }

  lemma KeepsOne(c: char)
    ensures KeepVisible([c]) == if Printable(c) then [c] else ""
  {
    assert [c][1..] == "" && KeepVisible("") == "";
  }

  ghost predicate Blanks(s: string) { forall i | 0 <= i < |s| :: s[i] == ' ' }

  ghost predicate Trimmed(s: string) { s != "" ==> s[0] != ' ' && s[|s| - 1] != ' ' }

  /** Stripping drops the blanks at both ends and nothing else. */
  lemma {:induction false} StripExact(before: string, s: string, after: string)
    requires Blanks(before) && Blanks(after) && Trimmed(s)
    ensures Strip(before + s + after) == s
    decreases |before| + |after|
  {
    var all := before + s + after;
    if before != "" {
      StripExact(before[1..], s, after);
      assert all[1..] == before[1..] + s + after;
    } else if after != "" {
      var n := |after| - 1;
      StripExact(before, s, after[..n]);
      assert all[..|all| - 1] == before + s + after[..n];
      if s == "" {
        assert all[0] == ' ' && all == after;
        AllBlank(after);
      }
    } else {
      assert all == s;
    }
  }

  lemma {:induction false} AllBlank(s: string)
    requires Blanks(s)
    ensures Strip(s) == ""
  {
    if s != "" { AllBlank(s[1..]); }
  }

  lemma VisibleParts(s: string) returns (before: string, core: string, after: string)
    ensures s == before + core + after && Blanks(before) && Blanks(after) && Trimmed(core)
  {
    before, after, core := "", "", s;
    while core != "" && core[0] == ' '
      invariant s == before + core + after && Blanks(before) && after == ""
      decreases |core|
    {
      assert core == [core[0]] + core[1..];
      before, core := before + [' '], core[1..];
    }
    while core != "" && core[|core| - 1] == ' '
      invariant s == before + core + after && Blanks(before) && Blanks(after)
      invariant core != "" ==> core[0] != ' '
      decreases |core|
    {
      assert core == core[..|core| - 1] + [' '];
      after, core := [' '] + after, core[..|core| - 1];
    }
  }

  /** A bounded text: the printable part of the value without its outer blanks, or the default when
    nothing is left of it, cut at the maximum. */
  ghost predicate BoundedOf(value: string, default: string, maximum: nat, text: string) {
    exists before, core, after ::
      && KeepVisible(value) == before + core + after && Blanks(before) && Blanks(after) && Trimmed(core)
      && text == Cut(if core == "" then default else core, maximum)
  }

  ghost function Cut(s: string, maximum: nat): string { if |s| <= maximum then s else s[..maximum] }

  lemma BoundedTextExact(value: string, default: string, maximum: nat)
    ensures BoundedOf(value, default, maximum, BoundedText(Some(value), default, maximum))
    ensures BoundedText(None, default, maximum) == default
  {
    var before, core, after := VisibleParts(KeepVisible(value));
    StripExact(before, core, after);
  }

  /** Lower-case ASCII letters are raised, everything else stays. */
  lemma {:induction false} UpperExact(s: string, i: nat)
    requires i < |s|
    ensures Upper(s)[i] as int == if 97 <= s[i] as int <= 122 then s[i] as int - 32 else s[i] as int
    decreases i
  {
    if i > 0 { UpperExact(s[1..], i - 1); }
  }

  // ------------------------------------------------------------------------- records

  /** The values of a record under their keys. */
  ghost function Expected(v: Values, recordedAt: string, newId: string): (ms: seq<Member>)
    ensures |ms| == 11
  {
    var verb := Upper(BoundedText(v.method_, "UNKNOWN", 16));
    [Member("schema", Str("stock-tracker-remote-write-audit-v1")),
     Member("recorded_at", Str(recordedAt)),
     Member("request_id", Str(BoundedText(v.requestId, newId, 64))),
     Member("event", Str(Upper(BoundedText(v.event, "REMOTE_API", 64)))),
     Member("method", Str(verb)),
     Member("route", Str(RouteTemplate(verb, v.path))),
     Member("client_boundary", Str(BoundedText(v.clientBoundary, "UNKNOWN", 64))),
     Member("origin", Str(BoundedText(v.origin, "NONE", 512))),
     Member("outcome", Str(Upper(BoundedText(v.outcome, "UNKNOWN", 64)))),
     Member("status", Int(if v.status.Some? && 0 <= v.status.value <= 999 then v.status.value else 0)),
     Member("code", Str(BoundedText(v.code, "NONE", 128)))]
  }

  /** An object with exactly these members, in any order. */
  ghost predicate Says(ps: seq<Member>, ms: seq<Member>) {
    |ps| == |ms| && UniqueKeys(ps) && forall m | m in ms :: m in ps
  }

  lemma PairsExpected(v: Values, recordedAt: string, newId: string)
    ensures RecordPairs(Clean(v, recordedAt, newId)) == Expected(v, recordedAt, newId)
  {
    hide BoundedText, Upper, RouteTemplate;
  }

  lemma ExpectedIsValue(v: Values, recordedAt: string, newId: string)
    ensures IsValue(Obj(Expected(v, recordedAt, newId)))
    ensures forall i | 0 <= i < 11 ::
              Expected(v, recordedAt, newId)[i].value.Str? || Expected(v, recordedAt, newId)[i].value.Int?
  {
    hide BoundedText, Upper, RouteTemplate, UniqueKeys;
    PairsExpected(v, recordedAt, newId);
    KeysDiffer(Clean(v, recordedAt, newId));
  }

  lemma KeysDiffer(f: Fields)
    ensures UniqueKeys(RecordPairs(f))
  {
  }

  /** Sorting keys moves members of plain values and changes none. */
  lemma SortedSay(ps: seq<Member>)
    requires IsValue(Obj(ps)) && forall i | 0 <= i < |ps| :: ps[i].value.Str? || ps[i].value.Int?
    ensures var qs := NormalizePairs(ps);
            |qs| == |ps| && UniqueKeys(qs) && forall m | m in ps :: m in qs
  {
    hide Normalize, NormalizePairs, IsValue;
    var qs := NormalizePairs(ps);
    ValueKeys(ps);
    NormalizedMembers(ps);
    NormalizedSorted(ps);
    SortedUnique(qs);
    forall m | m in ps ensures m in qs {
      var i :| 0 <= i < |ps| && ps[i] == m;
      PlainNorm(m);
    }
  }

  lemma ValueKeys(ps: seq<Member>)
    requires IsValue(Obj(ps))
    ensures UniqueKeys(ps)
  {
  }

  lemma PlainNorm(m: Member)
    requires m.value.Str? || m.value.Int?
    ensures Norm(m) == m
  {
  }

  /** A record line is read back as an object with exactly the eleven keys, each with its own
    cleaned value. */
  lemma RecordReadsBack(v: Values, recordedAt: string, newId: string)
    ensures var line := RecordLine(v, recordedAt, newId);
            && line != "" && line[|line| - 1] == '\n'
            && var loaded := StrictLoads(line[..|line| - 1]);
               loaded.Some? && loaded.value.Obj? && Says(loaded.value.pairs, Expected(v, recordedAt, newId))
  {
    hide Expected, Clean, RecordPairs, CanonicalText, StrictLoads, IsValue, NormalizePairs, UniqueKeys;
    var ms := Expected(v, recordedAt, newId);
    var text := CanonicalText(Obj(ms));
    PairsExpected(v, recordedAt, newId);
    ExpectedIsValue(v, recordedAt, newId);
    SortedSay(ms);
    RoundTrip(Obj(ms));
    assert (text + "\n")[..|text|] == text;
    assert Normalize(Obj(ms)) == Obj(NormalizePairs(ms));
  }
}
