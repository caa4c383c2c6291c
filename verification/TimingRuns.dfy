/** The timing recorder and its verdict in terms of what unittest reported: the callbacks between
  the start and the stop of each test, and the fixtures outside them. */
module TimingRuns {
  import opened Prelude
  import opened TimingRecorder

  /** A test with the callbacks it received, or a failed, erred or skipped fixture. */
  datatype Segment =
    | Test(id: string, body: seq<Callback>)
    | Fixture(id: string, outcome: Outcome)

  datatype Open = Open(id: string, body: seq<Callback>)

  /** The segments of a run that completes with these callbacks, `open` being under way. */
  ghost function Segments(cs: seq<Callback>, open: Option<Open>): seq<Segment>
    decreases |cs|
  {
    if cs == [] then []
    else
      match (cs[0], open)
      case (StartTest(test), _) => Segments(cs[1..], Some(Open(test, [])))
      case (StopTest, Some(o)) => [Test(o.id, o.body)] + Segments(cs[1..], None)
      case (AddFailure(test), None) => [Fixture(test, Fail)] + Segments(cs[1..], None)
      case (AddError(test), None) => [Fixture(test, Error)] + Segments(cs[1..], None)
      case (AddSkip(test), None) => [Fixture(test, Skip)] + Segments(cs[1..], None)
      case (c, Some(o)) => Segments(cs[1..], Some(Open(o.id, o.body + [c])))
      case (_, None) => Segments(cs[1..], None)
  }

  // ------------------------------------------------------------- what a body amounts to

  ghost predicate Errs(c: Callback) { c.AddError? || (c.AddSubTest? && c.outcome == Error) }

  ghost predicate Fails(c: Callback) { c.AddFailure? || (c.AddSubTest? && c.outcome == Fail) }

  ghost predicate OfSubtest(c: Callback) { c.AddSubTest? || c.AddSubtestSkip? }

  ghost predicate Errored(body: seq<Callback>) { exists i | 0 <= i < |body| :: Errs(body[i]) }

  ghost predicate Failing(body: seq<Callback>) { exists i | 0 <= i < |body| :: Fails(body[i]) }

  ghost predicate Unexpected(body: seq<Callback>) { exists i | 0 <= i < |body| :: body[i].AddUnexpectedSuccess? }

  ghost predicate Skipping(body: seq<Callback>) { exists i | 0 <= i < |body| :: body[i].AddSkip? }

  ghost predicate Expected(body: seq<Callback>) { exists i | 0 <= i < |body| :: body[i].AddExpectedFailure? }

  /** There are subtests, and each was skipped. */
  ghost predicate OnlySkippedSubtests(body: seq<Callback>) {
    && (exists i | 0 <= i < |body| :: OfSubtest(body[i]))
    && forall i | 0 <= i < |body| :: OfSubtest(body[i]) ==> body[i].AddSubtestSkip?
  }

  /** Worst news first: an error outweighs a failure, that an unexpected success, that a skip, that
    an expected failure. */
  ghost predicate Amounts(body: seq<Callback>, o: Outcome) {
    match o
    case Error => Errored(body)
    case Fail => Failing(body) && !Errored(body)
    case UnexpectedSuccess => Unexpected(body) && !Failing(body) && !Errored(body)
    case Skip => Skipping(body) && !Unexpected(body) && !Failing(body) && !Errored(body)
    case ExpectedFailure =>
      Expected(body) && !Skipping(body) && !Unexpected(body) && !Failing(body) && !Errored(body)
    case AllSubtestsSkipped =>
      && OnlySkippedSubtests(body)
      && !Expected(body) && !Skipping(body) && !Unexpected(body) && !Failing(body) && !Errored(body)
    case Pass =>
      && !OnlySkippedSubtests(body)
      && !Expected(body) && !Skipping(body) && !Unexpected(body) && !Failing(body) && !Errored(body)
  }

  /** The subtests in order, with their outcomes. */
  ghost function Subtests(body: seq<Callback>): seq<(string, Outcome)> {
    if body == [] then []
    else
      var c := body[|body| - 1];
      Subtests(body[..|body| - 1])
      + match c
        case AddSubTest(subtest, outcome) => [(subtest, outcome)]
        case AddSubtestSkip(subtest) => [(subtest, Skip)]
        case _ => []
  }

  /** The row a segment must have. */
  ghost predicate RowOf(row: Row, segment: Segment) {
    match segment
    case Test(id, body) =>
      row.testId == id && row.ofTest && Amounts(body, row.outcome) && Lists(row.subtests, Subtests(body))
    case Fixture(id, outcome) => row.testId == id && !row.ofTest && row.outcome == outcome && row.subtests == []
  }

  ghost predicate Lists(ss: seq<Subcase>, subtests: seq<(string, Outcome)>) {
    |ss| == |subtests| && forall i | 0 <= i < |ss| :: (ss[i].subtestId, ss[i].outcome) == subtests[i]
  }

  ghost predicate RowsOf(rows: seq<Row>, segments: seq<Segment>) {
    |rows| == |segments| && forall i | 0 <= i < |rows| :: RowOf(rows[i], segments[i])
  }

  // --------------------------------------------------------------- the running test

  /** What the recorder knows of a test under way. */
  ghost predicate Knows(c: Case, body: seq<Callback>) {
    && (c.errors > 0 || c.subtestErrored <==> Errored(body))
    && (c.failures > 0 || c.subtestFailed <==> Failing(body))
    && (c.unexpectedSuccesses > 0 <==> Unexpected(body))
    && (c.skips > 0 <==> Skipping(body))
    && (c.expectedFailures > 0 <==> Expected(body))
    && Lists(c.subtests, Subtests(body))
    && (OnlySkippedSubtests(body)
        <==> c.subtests != [] && forall i | 0 <= i < |c.subtests| :: c.subtests[i].outcome == Skip)
  }

  lemma KnowsNothing()
    ensures Knows(NEW_CASE, [])
  {
  }

  /** A body with one more callback. */
  lemma BodySnoc(body: seq<Callback>, c: Callback)
    ensures Errored(body + [c]) <==> Errored(body) || Errs(c)
    ensures Failing(body + [c]) <==> Failing(body) || Fails(c)
    ensures Unexpected(body + [c]) <==> Unexpected(body) || c.AddUnexpectedSuccess?
    ensures Skipping(body + [c]) <==> Skipping(body) || c.AddSkip?
    ensures Expected(body + [c]) <==> Expected(body) || c.AddExpectedFailure?
  {
    hide Errs, Fails;
    var all := body + [c];
    assert all[|body|] == c && forall i | 0 <= i < |body| :: all[i] == body[i];
    if i :| 0 <= i < |body| && Errs(body[i]) { assert Errs(all[i]); }
    if i :| 0 <= i < |body| && Fails(body[i]) { assert Fails(all[i]); }
    if i :| 0 <= i < |body| && body[i].AddUnexpectedSuccess? { assert all[i].AddUnexpectedSuccess?; }
    if i :| 0 <= i < |body| && body[i].AddSkip? { assert all[i].AddSkip?; }
    if i :| 0 <= i < |body| && body[i].AddExpectedFailure? { assert all[i].AddExpectedFailure?; }
  }

  lemma SubtestsSnoc(body: seq<Callback>, c: Callback)
    ensures Subtests(body + [c])
            == Subtests(body) + match c
                                case AddSubTest(subtest, outcome) => [(subtest, outcome)]
                                case AddSubtestSkip(subtest) => [(subtest, Skip)]
                                case _ => []
  {
    assert (body + [c])[..|body|] == body;
  }

  /** Whether all subtests were skipped can be told from their list; unittest reports none through
    `addSubTest` as skipped. */
  lemma {:induction false} SkippedByList(body: seq<Callback>)
    requires forall i | 0 <= i < |body| :: body[i].AddSubTest? ==> body[i].outcome != Skip
    ensures Subtests(body) == [] <==> forall i | 0 <= i < |body| :: !OfSubtest(body[i])
    ensures (forall j | 0 <= j < |Subtests(body)| :: Subtests(body)[j].1 == Skip)
            <==> forall i | 0 <= i < |body| :: OfSubtest(body[i]) ==> body[i].AddSubtestSkip?
  {
    if body != [] {
      var n := |body| - 1;
      SkippedByList(body[..n]);
      assert forall i | 0 <= i < n :: body[..n][i] == body[i];
      var before, after := Subtests(body[..n]), Subtests(body);
      assert forall j | 0 <= j < |before| :: after[j] == before[j];
      if OfSubtest(body[n]) {
        assert after[|before|].1 == Skip <==> body[n].AddSubtestSkip?;
      }
    }
  }

  /** A callback that belongs into a test. */
  ghost predicate InTest(c: Callback) {
    !c.StartTest? && !c.StopTest? && (c.AddSubTest? ==> c.outcome in {Pass, Fail, Error})
  }

  ghost predicate AllInTest(body: seq<Callback>) { forall i | 0 <= i < |body| :: InTest(body[i]) }

  lemma ListsSnoc(ss: seq<Subcase>, subtests: seq<(string, Outcome)>, s: Subcase)
    requires Lists(ss, subtests)
    ensures Lists(ss + [s], subtests + [(s.subtestId, s.outcome)])
  {
  }

  lemma SkippedList(c: Case, body: seq<Callback>)
    requires Lists(c.subtests, Subtests(body)) && AllInTest(body)
    ensures OnlySkippedSubtests(body)
            <==> c.subtests != [] && forall i | 0 <= i < |c.subtests| :: c.subtests[i].outcome == Skip
  {
    SkippedByList(body);
    hide Subtests;
    var subtests := Subtests(body);
    assert forall i | 0 <= i < |subtests| :: (c.subtests[i].subtestId, c.subtests[i].outcome) == subtests[i];
    assert forall i | 0 <= i < |subtests| :: c.subtests[i].outcome == subtests[i].1;
  }

  /** A test under way hears of one more thing. */
  lemma HearsMore(r: Recorder, c: Callback, body: seq<Callback>)
    requires r.active.Some? && InTest(c) && Knows(r.current, body) && AllInTest(body)
    ensures var s := Handle(r, c);
            Knows(s.current, body + [c]) && s.sink == r.sink && s.active == r.active && AllInTest(body + [c])
  {
    hide Errored, Failing, Unexpected, Skipping, Expected, OnlySkippedSubtests, Subtests, Lists;
    var s := Handle(r, c);
    BodySnoc(body, c);
    SubtestsSnoc(body, c);
    if OfSubtest(c) {
      var outcome := if c.AddSubTest? then c.outcome else Skip;
      ListsSnoc(r.current.subtests, Subtests(body), Subcase(c.subtest, outcome, |r.full|));
    } else {
      assert Subtests(body) + [] == Subtests(body);
    }
    SkippedList(s.current, body + [c]);
  }

  lemma OutcomeAmounts(c: Case, body: seq<Callback>)
    requires Knows(c, body)
    ensures Amounts(body, CaseOutcome(c))
  {
    hide Errored, Failing, Unexpected, Skipping, Expected, OnlySkippedSubtests, Subtests, Lists;
  }

  // ------------------------------------------------------------------- whole runs

  /** The rows so far are those of the segments so far, and the recorder knows the open test. */
  ghost predicate Follows(r: Recorder, open: Option<Open>, done: seq<Segment>) {
    && RowsOf(r.sink, done)
    && (r.active.Some? <==> open.Some?)
    && (open.Some? ==>
          r.active == Some(open.value.id) && Knows(r.current, open.value.body) && AllInTest(open.value.body))
  }

  lemma RowsSnoc(rows: seq<Row>, segments: seq<Segment>, row: Row, segment: Segment)
    requires RowsOf(rows, segments) && RowOf(row, segment)
    ensures RowsOf(rows + [row], segments + [segment])
  {
  }

  /** What a callback closes, and what is open after it. */
  ghost function Closed(c: Callback, open: Option<Open>): seq<Segment> {
    match (c, open)
    case (StopTest, Some(o)) => [Test(o.id, o.body)]
    case (AddFailure(test), None) => [Fixture(test, Fail)]
    case (AddError(test), None) => [Fixture(test, Error)]
    case (AddSkip(test), None) => [Fixture(test, Skip)]
    case _ => []
  }

  ghost function StillOpen(c: Callback, open: Option<Open>): Option<Open> {
    match (c, open)
    case (StartTest(test), _) => Some(Open(test, []))
    case (StopTest, _) => None
    case (_, Some(o)) => Some(Open(o.id, o.body + [c]))
    case (_, None) => None
  }

  lemma SegmentsCons(cs: seq<Callback>, open: Option<Open>)
    requires cs != []
    ensures Segments(cs, open) == Closed(cs[0], open) + Segments(cs[1..], StillOpen(cs[0], open))
  {
    assert [] + Segments(cs[1..], StillOpen(cs[0], open)) == Segments(cs[1..], StillOpen(cs[0], open));
  }

  lemma FixtureFollows(r: Recorder, t: Totals, test: string, outcome: Outcome, done: seq<Segment>)
    requires Follows(r, None, done)
    ensures Follows(EmitScopeRow(r.(totals := t), test, outcome), None, done + [Fixture(test, outcome)])
  {
    RowsSnoc(r.sink, done, Row(test, false, outcome, |r.full|, []), Fixture(test, outcome));
  }

  lemma StopFollows(r: Recorder, open: Open, done: seq<Segment>)
    requires Follows(r, Some(open), done)
    ensures Follows(Handle(r, StopTest), None, done + [Test(open.id, open.body)])
  {
    hide Amounts, Knows, Lists, Subtests, CaseOutcome;
    OutcomeAmounts(r.current, open.body);
    KnownSubtests(r.current, open.body);
    RowsSnoc(r.sink, done, Row(open.id, true, CaseOutcome(r.current), |r.full|, r.current.subtests),
             Test(open.id, open.body));
  }

  lemma KnownSubtests(c: Case, body: seq<Callback>)
    requires Knows(c, body)
    ensures Lists(c.subtests, Subtests(body))
  {
  }

  lemma HandleFollows(r: Recorder, c: Callback, open: Option<Open>, done: seq<Segment>)
    requires Follows(r, open, done) && Allowed(r, c)
    ensures Follows(Handle(r, c), StillOpen(c, open), done + Closed(c, open))
  {
    hide Knows, RowsOf;
    assert done + [] == done;
    if c.StartTest? {
      KnowsNothing();
    } else if open.Some? {
      if c.StopTest? {
        StopFollows(r, open.value, done);
      } else {
        HearsMore(r, c, open.value.body);
      }
    } else if c.AddFailure? {
      FixtureFollows(r, r.totals.(failures := r.totals.failures + 1), c.test, Fail, done);
    } else if c.AddError? {
      FixtureFollows(r, r.totals.(errors := r.totals.errors + 1), c.test, Error, done);
    } else {
      FixtureFollows(r, r.totals, c.test, Skip, done);
    }
  }

  lemma {:induction false} RunFollows(r: Recorder, cs: seq<Callback>, open: Option<Open>, done: seq<Segment>)
    requires Follows(r, open, done) && Bracketed(r, cs)
    ensures RowsOf(HandleAll(r, cs).sink, done + Segments(cs, open))
    decreases |cs|
  {
    hide Follows, RowsOf, Segments;
    if cs == [] {
      FollowsRows(r, open, done);
    } else {
      HandleFollows(r, cs[0], open, done);
      RunFollows(Handle(r, cs[0]), cs[1..], StillOpen(cs[0], open), done + Closed(cs[0], open));
      SegmentsCons(cs, open);
      assert done + Segments(cs, open)
             == done + Closed(cs[0], open) + Segments(cs[1..], StillOpen(cs[0], open));
    }
  }

  lemma FollowsRows(r: Recorder, open: Option<Open>, done: seq<Segment>)
    requires Follows(r, open, done)
    ensures RowsOf(r.sink, done + Segments([], open))
  {
    assert done + [] == done;
  }

  /** Every bracketed run: the rows are those of the tests and fixtures, in order, each with the
    outcome that its callbacks amount to and its subtests. */
  lemma RowsFollowCallbacks(cs: seq<Callback>)
    requires Bracketed(EMPTY, cs)
    ensures RowsOf(HandleAll(EMPTY, cs).sink, Segments(cs, None))
  {
    RunFollows(EMPTY, cs, None, []);
    assert [] + Segments(cs, None) == Segments(cs, None);
  }

  // ------------------------------------------------------------------- the verdict

  ghost predicate SegmentOf(s: Segment, ofTest: bool, o: Outcome) {
    match s
    case Test(_, body) => ofTest && Amounts(body, o)
    case Fixture(_, outcome) => !ofTest && outcome == o
  }

  ghost function Number(segments: seq<Segment>, ofTest: bool, o: Outcome): nat {
    if segments == [] then 0
    else
      Number(segments[..|segments| - 1], ofTest, o) + if SegmentOf(segments[|segments| - 1], ofTest, o) then 1 else 0
  }

  lemma OneOutcome(body: seq<Callback>, o: Outcome, p: Outcome)
    requires Amounts(body, o)
    ensures Amounts(body, p) <==> o == p
  {
    hide Errored, Failing, Unexpected, Skipping, Expected, OnlySkippedSubtests;
  }

  lemma {:induction false} CountNumber(rows: seq<Row>, segments: seq<Segment>, ofTest: bool, o: Outcome)
    requires RowsOf(rows, segments)
    ensures Count(rows, ofTest, o) == Number(segments, ofTest, o)
  {
    hide Amounts;
    if rows != [] {
      var n := |rows| - 1;
      CountNumber(rows[..n], segments[..n], ofTest, o);
      assert RowOf(rows[n], segments[n]);
      if segments[n].Test? {
        OneOutcome(segments[n].body, rows[n].outcome, o);
      }
    }
  }

  lemma {:induction false} NumberExists(segments: seq<Segment>, ofTest: bool, o: Outcome)
    ensures Number(segments, ofTest, o) > 0
            <==> exists i | 0 <= i < |segments| :: SegmentOf(segments[i], ofTest, o)
  {
    hide SegmentOf;
    if segments != [] {
      var n := |segments| - 1;
      var front := segments[..n];
      NumberExists(front, ofTest, o);
      assert forall i | 0 <= i < n :: front[i] == segments[i];
      if i :| 0 <= i < n && SegmentOf(front[i], ofTest, o) { assert SegmentOf(segments[i], ofTest, o); }
    }
  }

  /** A test or fixture that makes a run fail. */
  ghost predicate BadSegment(s: Segment) {
    match s
    case Test(_, body) => Errored(body) || Failing(body) || Unexpected(body)
    case Fixture(_, outcome) => outcome == Fail || outcome == Error
  }

  /** A test that says something good about the code: nothing went wrong, it was not skipped, and it
    failed as expected or not all it had was skipped. */
  ghost predicate Convincing(s: Segment) {
    && s.Test? && !BadSegment(s) && !Skipping(s.body)
    && (Expected(s.body) || !OnlySkippedSubtests(s.body))
  }

  ghost predicate FixturesPlain(segments: seq<Segment>) {
    forall i | 0 <= i < |segments| :: segments[i].Fixture? ==> segments[i].outcome in {Fail, Error, Skip}
  }

  lemma {:induction false} SegmentsPlain(cs: seq<Callback>, open: Option<Open>)
    ensures FixturesPlain(Segments(cs, open))
    decreases |cs|
  {
    if cs != [] {
      hide Segments;
      SegmentsCons(cs, open);
      SegmentsPlain(cs[1..], StillOpen(cs[0], open));
      ClosedPlain(Closed(cs[0], open), Segments(cs[1..], StillOpen(cs[0], open)), cs[0], open);
    } else {
      assert Segments(cs, open) == [];
    }
  }

  lemma ClosedPlain(a: seq<Segment>, b: seq<Segment>, c: Callback, open: Option<Open>)
    requires a == Closed(c, open) && FixturesPlain(b)
    ensures FixturesPlain(a + b)
  {
  }

  lemma BadByOutcome(s: Segment)
    requires s.Fixture? ==> s.outcome in {Fail, Error, Skip}
    ensures BadSegment(s) <==>
              || SegmentOf(s, true, Fail) || SegmentOf(s, true, Error) || SegmentOf(s, true, UnexpectedSuccess)
              || SegmentOf(s, false, Fail) || SegmentOf(s, false, Error)
    ensures !SegmentOf(s, false, UnexpectedSuccess)
    ensures Convincing(s) <==> SegmentOf(s, true, Pass) || SegmentOf(s, true, ExpectedFailure)
  {
    hide Errored, Failing, Unexpected, Skipping, Expected, OnlySkippedSubtests;
  }

  /** The counts of `main` by segments. */
  lemma CountsBySegments(rows: seq<Row>, segments: seq<Segment>)
    requires RowsOf(rows, segments) && FixturesPlain(segments)
    ensures BadRows(rows) > 0 <==> exists i | 0 <= i < |segments| :: BadSegment(segments[i])
  {
    hide Count, Number, SegmentOf, BadSegment, RowsOf, Convincing;
    CountNumber(rows, segments, true, Fail);
    CountNumber(rows, segments, false, Fail);
    CountNumber(rows, segments, true, Error);
    CountNumber(rows, segments, false, Error);
    CountNumber(rows, segments, true, UnexpectedSuccess);
    CountNumber(rows, segments, false, UnexpectedSuccess);
    NumberExists(segments, true, Fail);
    NumberExists(segments, false, Fail);
    NumberExists(segments, true, Error);
    NumberExists(segments, false, Error);
    NumberExists(segments, true, UnexpectedSuccess);
    NumberExists(segments, false, UnexpectedSuccess);
    forall i | 0 <= i < |segments|
      ensures BadSegment(segments[i]) <==>
                || SegmentOf(segments[i], true, Fail) || SegmentOf(segments[i], true, Error)
                || SegmentOf(segments[i], true, UnexpectedSuccess)
                || SegmentOf(segments[i], false, Fail) || SegmentOf(segments[i], false, Error)
      ensures !SegmentOf(segments[i], false, UnexpectedSuccess)
    {
      BadByOutcome(segments[i]);
    }
  }

  /** The verdict in terms of what was reported. */
  lemma VerdictOfRun(cs: seq<Callback>)
    requires Bracketed(EMPTY, cs) && HandleAll(EMPTY, cs).active.None?
    ensures var verdict, segments := VerdictOf(HandleAll(EMPTY, cs)), Segments(cs, None);
            && (verdict == Failed <==> exists i | 0 <= i < |segments| :: BadSegment(segments[i]))
            && (verdict == Validated <==>
                  && (forall i | 0 <= i < |segments| :: !BadSegment(segments[i]))
                  && ((exists i | 0 <= i < |segments| :: SegmentOf(segments[i], true, Pass))
                      || Number(segments, true, ExpectedFailure) > Number(segments, false, Skip)))
  {
    hide HandleAll, Bracketed, VerdictOf, BadRows, Count, Segments, Number, SegmentOf, BadSegment,
         RowsOf, FixturesPlain;
    var rows, segments := HandleAll(EMPTY, cs).sink, Segments(cs, None);
    VerdictExact(cs);
    RowsFollowCallbacks(cs);
    SegmentsPlain(cs, None);
    CountsBySegments(rows, segments);
    CountNumber(rows, segments, true, Pass);
    CountNumber(rows, segments, true, ExpectedFailure);
    CountNumber(rows, segments, false, Skip);
    NumberExists(segments, true, Pass);
  }

  /** A run that is called OK has a test that passed or failed as expected, and nothing bad. */
  lemma OkMeansValidated(cs: seq<Callback>)
    requires Bracketed(EMPTY, cs) && HandleAll(EMPTY, cs).active.None?
    requires VerdictOf(HandleAll(EMPTY, cs)) == Validated
    ensures exists i | 0 <= i < |Segments(cs, None)| :: Convincing(Segments(cs, None)[i])
    ensures forall i | 0 <= i < |Segments(cs, None)| :: !BadSegment(Segments(cs, None)[i])
  {
    hide HandleAll, Bracketed, VerdictOf, Segments, Number, SegmentOf, BadSegment, Convincing;
    var segments := Segments(cs, None);
    VerdictOfRun(cs);
    SegmentsPlain(cs, None);
    NumberExists(segments, true, ExpectedFailure);
    forall i | 0 <= i < |segments|
      ensures Convincing(segments[i]) <==>
                SegmentOf(segments[i], true, Pass) || SegmentOf(segments[i], true, ExpectedFailure)
    {
      BadByOutcome(segments[i]);
    }
  }

  /** A run of which nothing but skipped tests and skipped fixtures was reported is not validated. */
  lemma SkippedRunNotValidated(cs: seq<Callback>)
    requires Bracketed(EMPTY, cs) && HandleAll(EMPTY, cs).active.None?
    requires forall i | 0 <= i < |Segments(cs, None)| ::
               !BadSegment(Segments(cs, None)[i]) && !Convincing(Segments(cs, None)[i])
    ensures VerdictOf(HandleAll(EMPTY, cs)) == NotValidated
  {
    hide HandleAll, Bracketed, VerdictOf, Segments, BadSegment, Convincing;
    VerdictOfRun(cs);
    if VerdictOf(HandleAll(EMPTY, cs)) == Validated {
      OkMeansValidated(cs);
    }
  }

  /** The sequences unittest can send: tests do not nest, every start has its stop, failures, errors
    and skips may come at any time, and everything else only inside a test. */
  ghost predicate Regular(cs: seq<Callback>, inside: bool)
    decreases |cs|
  {
    cs == []
    || match cs[0]
       case StartTest(_) => !inside && Regular(cs[1..], true)
       case StopTest => inside && Regular(cs[1..], false)
       case AddFailure(_) => Regular(cs[1..], inside)
       case AddError(_) => Regular(cs[1..], inside)
       case AddSkip(_) => Regular(cs[1..], inside)
       case AddSubTest(_, outcome) =>
         inside && (outcome == Pass || outcome == Fail || outcome == Error) && Regular(cs[1..], inside)
       case _ => inside && Regular(cs[1..], inside)
  }

  lemma {:induction false} BracketedExact(r: Recorder, cs: seq<Callback>)
    ensures Bracketed(r, cs) <==> Regular(cs, r.active.Some?)
    decreases |cs|
  {
    if cs != [] {
      BracketedExact(Handle(r, cs[0]), cs[1..]);
    }
  }

  // ------------------------------------------------------------------- the counters

  datatype Kind = Starts | Failures | Errors | UnexpectedSuccesses

  ghost predicate OfKind(c: Callback, kind: Kind) {
    match kind
    case Starts => c.StartTest?
    case Failures => Fails(c)
    case Errors => Errs(c)
    case UnexpectedSuccesses => c.AddUnexpectedSuccess?
  }

  ghost function HowMany(cs: seq<Callback>, kind: Kind): nat
    decreases |cs|
  {
    if cs == [] then 0 else (if OfKind(cs[0], kind) then 1 else 0) + HowMany(cs[1..], kind)
  }

  /** `unittest`'s own counters: every start, failure, error and unexpected success once. */
  lemma {:induction false} TotalsExact(r: Recorder, cs: seq<Callback>)
    requires Bracketed(r, cs)
    ensures var t := HandleAll(r, cs).totals;
            && t.testsRun == r.totals.testsRun + HowMany(cs, Starts)
            && t.failures == r.totals.failures + HowMany(cs, Failures)
            && t.errors == r.totals.errors + HowMany(cs, Errors)
            && t.unexpectedSuccesses == r.totals.unexpectedSuccesses + HowMany(cs, UnexpectedSuccesses)
    decreases |cs|
  {
    if cs != [] {
      hide Handle, OfKind;
      HandleTotals(r, cs[0]);
      TotalsExact(Handle(r, cs[0]), cs[1..]);
    }
  }

  lemma HandleTotals(r: Recorder, c: Callback)
    ensures var t := Handle(r, c).totals;
            && t.testsRun - r.totals.testsRun == (if OfKind(c, Starts) then 1 else 0)
            && t.failures - r.totals.failures == (if OfKind(c, Failures) then 1 else 0)
            && t.errors - r.totals.errors == (if OfKind(c, Errors) then 1 else 0)
            && t.unexpectedSuccesses - r.totals.unexpectedSuccesses == if OfKind(c, UnexpectedSuccesses) then 1 else 0
  {
  }
}
