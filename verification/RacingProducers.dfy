/** What racing producers cost: once an append takes the regression branch, some schedule of
  accepted polls leaves that event undelivered and unreported, for ever. */
module RacingProducers {
  import opened Prelude
  import opened Envelopes
  import opened SidecarState
  import opened RuntimeInvariants
  import opened SidecarClient
  import opened EventDelivery
  import opened DeliveryRuns

  // ------------------------------------------------------------ polling after every step

  ghost predicate NoPolls(steps: seq<Step>) { forall i | 0 <= i < |steps| :: !steps[i].Poll? }

  function WithPolls(steps: seq<Step>, poll: Step): seq<Step> {
    if steps == [] then [] else WithPolls(steps[..|steps| - 1], poll) + [steps[|steps| - 1], poll]
  }

  lemma {:induction false} RunConcat(lib: Lib, s: System, a: seq<Step>, b: seq<Step>)
    ensures Run(lib, s, a + b) == Run(lib, Run(lib, s, a), b)
    decreases |a|
  {
    hide Next;
    if a == [] {
      assert a + b == b;
    } else {
      RunConcat(lib, Next(lib, s, a[0]), a[1..], b);
      assert (a + b)[0] == a[0] && (a + b)[1..] == a[1..] + b;
    }
  }

  lemma RunOne(lib: Lib, s: System, step: Step)
    ensures Run(lib, s, [step]) == Next(lib, s, step)
  {
    hide Next;
    assert [step][1..] == [];
    assert Run(lib, Next(lib, s, step), []) == Next(lib, s, step);
  }

  lemma RunSnoc(lib: Lib, s: System, steps: seq<Step>)
    requires steps != []
    ensures Run(lib, s, steps) == Next(lib, Run(lib, s, steps[..|steps| - 1]), steps[|steps| - 1])
  {
    hide Next, Run;
    var n := |steps| - 1;
    RunConcat(lib, s, steps[..n], [steps[n]]);
    RunOne(lib, Run(lib, s, steps[..n]), steps[n]);
    assert steps[..n] + [steps[n]] == steps;
  }

  lemma RunPolled(lib: Lib, s: System, steps: seq<Step>, poll: Step)
    requires steps != []
    ensures var n := |steps| - 1;
            Run(lib, s, WithPolls(steps, poll))
            == Next(lib, Next(lib, Run(lib, s, WithPolls(steps[..n], poll)), steps[n]), poll)
  {
    hide Next, Run;
    var n := |steps| - 1;
    var front := WithPolls(steps[..n], poll);
    RunConcat(lib, s, front, [steps[n], poll]);
    RunConcat(lib, Run(lib, s, front), [steps[n]], [poll]);
    assert [steps[n]] + [poll] == [steps[n], poll];
    RunOne(lib, Run(lib, s, front), steps[n]);
    RunOne(lib, Next(lib, Run(lib, s, front), steps[n]), poll);
  }

  /** Producers do not see the client. */
  lemma ClientApart(lib: Lib, s: System, step: Step, cursor: nat, delivered: seq<Envelope>)
    requires !step.Poll?
    ensures Next(lib, s.(cursor := cursor, delivered := delivered), step)
            == Next(lib, s, step).(cursor := cursor, delivered := delivered)
    ensures Next(lib, s, step).runtime.config == s.runtime.config
  {
    hide Built;
  }

  /** A step adds at most one event to the history. */
  lemma OneMoreAtMost(lib: Lib, s: System, step: Step)
    ensures var t := Next(lib, s, step);
            t.accepted == s.accepted || (step.Submit? && t.accepted == s.accepted + [step.e])
  {
    hide Built, Append, Accepts, ToWire, DecodeAll;
  }

  // --------------------------------------------------------------- a client that keeps up

  /** The cursor of a client that has read everything. */
  ghost function Top(acc: seq<Event>): nat { if acc == [] then 0 else Last(acc) }

  /** The client's poll can accept every event of a history. */
  ghost predicate Suits(poll: Step, config: Config, acc: seq<Event>) {
    && poll.Poll? && 1 <= poll.limit <= 500 && ArgumentsOk(0, poll.limit, poll.x)
    && IdentifierText(config.sessionId)
    && (poll.x.sessionId.Some? ==> poll.x.sessionId.value == config.sessionId)
    && AllFresh(acc, poll.now)
    && forall i | 0 <= i < |acc| :: EventFits(acc[i], config.sessionId, poll.x)
  }

  lemma SuitsFront(poll: Step, config: Config, acc: seq<Event>, e: Event)
    requires Suits(poll, config, acc + [e])
    ensures Suits(poll, config, acc)
  {
    hide IdentifierText, ArgumentsOk, EventFits, TimesOk;
    assert forall i | 0 <= i < |acc| :: (acc + [e])[i] == acc[i];
  }

  /** Reading past the events of the history so far leaves at most the newest one. */
  lemma OnlyNewest(rt: State, acc: seq<Event>, c: nat)
    requires Holds(rt, acc) && Ordered(acc) && acc != [] && rt.config.maxEvents >= 2 && acc[0].callbackSeq == 1
    requires c == Last(acc) || c == Top(acc[..|acc| - 1])
    ensures After(rt.buffer.events, c) == if c == Last(acc) then [] else [acc[|acc| - 1]]
    ensures rt.buffer.events != [] && c >= rt.buffer.events[0].callbackSeq - 1
  {
    var n := |acc| - 1;
    var d := rt.buffer.droppedBufferCount;
    assert rt.buffer.events != [] && rt.buffer.events[0] == acc[d];
    if c == Last(acc) {
      SplitAt(acc, d, n + 1, c);
      assert acc[n + 1..] == [];
    } else {
      TopBelow(acc);
      SplitAt(acc, d, n, c);
      assert acc[n..] == [acc[n]];
      assert n > 0 ==> d < n;
    }
  }

  lemma TopBelow(acc: seq<Event>)
    requires acc != [] && Ordered(acc)
    ensures var n := |acc| - 1; AllUpTo(acc[..n], Top(acc[..n])) && AllAbove(acc[n..], Top(acc[..n]))
  {
    var n := |acc| - 1;
    if n > 0 {
      assert acc[..n][n - 1] == acc[n - 1];
    }
  }

  /** A poll takes a client from the previous top to the top. */
  lemma PollKeepsUp(lib: Lib, s: System, poll: Step, acc: seq<Event>)
    requires LibOk(lib) && SystemInv(lib, s) && Ordered(s.accepted) && s.runtime.config.maxEvents >= 2
    requires s.accepted != [] ==> s.accepted[0].callbackSeq == 1
    requires Suits(poll, s.runtime.config, s.accepted)
    requires s.cursor == Top(acc) && s.delivered == acc
    requires s.accepted == acc || (s.accepted != [] && acc == s.accepted[..|s.accepted| - 1])
    ensures Next(lib, s, poll) == s.(cursor := Top(s.accepted), delivered := s.accepted)
  {
    hide PageAfter, Built, Ordered, Kept, CaughtUp, Top, Next, AllFresh, EventFits, ArgumentsOk, IdentifierText;
    NotLost(s.runtime, s.accepted, acc, poll.limit);
    NewestPage(s.runtime, s.accepted, acc, poll.limit);
    SuitedPoll(lib, s, poll);
  }

  /** A client whose cursor is not lost and whom the whole history suits accepts its next page. */
  lemma SuitedPoll(lib: Lib, s: System, poll: Step)
    requires LibOk(lib) && SystemInv(lib, s) && Ordered(s.accepted)
    requires Suits(poll, s.runtime.config, s.accepted)
    requires !PageAfter(s.runtime, s.cursor, poll.limit).cursorLost
    ensures Next(lib, s, poll) == Advanced(s, PageAfter(s.runtime, s.cursor, poll.limit))
  {
    hide PageAfter, Built, Accepts, EventFits, Ordered, Kept, ArgumentsOk, DecodeAll, TimesOk, CaughtUp, IdentifierText,
      Next, Advanced, ToWire;
    PageSuits(s, poll);
    HonestPageAccepted(lib, s.runtime, s.accepted, s.cursor, poll.limit, poll.x, poll.now);
    AcceptedPoll(lib, s, poll);
  }

  lemma NotLost(rt: State, all: seq<Event>, acc: seq<Event>, limit: nat)
    requires Holds(rt, all) && Ordered(all) && rt.config.maxEvents >= 2
    requires all != [] ==> all[0].callbackSeq == 1
    requires all == acc || (all != [] && acc == all[..|all| - 1])
    ensures !PageAfter(rt, Top(acc), limit).cursorLost
  {
    if all != [] {
      OnlyNewest(rt, all, Top(acc));
    }
  }

  lemma ShortPage(rt: State, c: nat, limit: nat, es: seq<Event>)
    requires After(rt.buffer.events, c) == es && |es| <= 1 <= limit
    ensures var p := PageAfter(rt, c, limit);
            p.events == es && p.nextCursor == if es == [] then c else es[0].callbackSeq
  {
  }

  lemma NewestPage(rt: State, all: seq<Event>, acc: seq<Event>, limit: nat)
    requires Holds(rt, all) && Ordered(all) && rt.config.maxEvents >= 2 && limit >= 1
    requires all != [] ==> all[0].callbackSeq == 1
    requires all == acc || (all != [] && acc == all[..|all| - 1])
    ensures var p := PageAfter(rt, Top(acc), limit);
            acc + p.events == all && p.nextCursor == Top(all)
  {
    if all == [] {
      ShortPage(rt, 0, limit, []);
    } else {
      OnlyNewest(rt, all, Top(acc));
      OrderedFront(all);
      hide Kept, Ordered, PageAfter;
      NewestEvents(rt, all, acc, limit);
    }
  }

  lemma NewestEvents(rt: State, all: seq<Event>, acc: seq<Event>, limit: nat)
    requires all != [] && limit >= 1 && (all == acc || (acc == all[..|all| - 1] && Top(acc) != Last(all)))
    requires After(rt.buffer.events, Top(acc)) == if Top(acc) == Last(all) then [] else [all[|all| - 1]]
    ensures var p := PageAfter(rt, Top(acc), limit);
            acc + p.events == all && p.nextCursor == Top(all)
  {
    hide PageAfter;
    if all == acc {
      ShortPage(rt, Top(acc), limit, []);
      assert acc + [] == acc;
    } else {
      ShortPage(rt, Top(acc), limit, [all[|all| - 1]]);
      assert acc + [all[|all| - 1]] == all;
    }
  }

  lemma SliceSuits(poll: Step, config: Config, acc: seq<Event>, k: nat, m: nat)
    requires Suits(poll, config, acc) && k <= m <= |acc|
    ensures AllFresh(acc[k..m], poll.now)
    ensures forall i | 0 <= i < m - k :: EventFits(acc[k..m][i], config.sessionId, poll.x)
  {
    hide TimesOk, EventFits, IdentifierText, ArgumentsOk;
    assert forall i | 0 <= i < m - k :: acc[k..m][i] == acc[k + i];
  }

  lemma PageSuits(s: System, poll: Step)
    requires Holds(s.runtime, s.accepted) && Ordered(s.accepted) && Suits(poll, s.runtime.config, s.accepted)
    requires !PageAfter(s.runtime, s.cursor, poll.limit).cursorLost
    ensures var p := PageAfter(s.runtime, s.cursor, poll.limit);
            && AllFresh(p.events, poll.now)
            && (forall i | 0 <= i < |p.events| :: EventFits(p.events[i], s.runtime.config.sessionId, poll.x))
            && ArgumentsOk(s.cursor, poll.limit, poll.x)
  {
    hide TimesOk, EventFits, IdentifierText, PageAfter, Ordered, Kept, AllFresh, SymbolText, FeedModeOk;
    var k, m := PageContinues(s.runtime, s.accepted, s.cursor, poll.limit);
    SliceSuits(poll, s.runtime.config, s.accepted, k, m);
  }

  /** With a poll after each of their steps, producers run as before and the client has
    everything at any time. */
  lemma {:induction false} KeepsUp(lib: Lib, rt: State, steps: seq<Step>, poll: Step)
    requires LibOk(lib) && SystemInv(lib, Initial(rt)) && rt.config.maxEvents >= 2 && NoPolls(steps)
    requires var s := Run(lib, Initial(rt), steps);
             && Ordered(s.accepted) && (s.accepted != [] ==> s.accepted[0].callbackSeq == 1)
             && Suits(poll, rt.config, s.accepted)
    ensures var s := Run(lib, Initial(rt), steps);
            && Run(lib, Initial(rt), WithPolls(steps, poll))
               == s.(cursor := Top(s.accepted), delivered := s.accepted)
            && s.runtime.config == rt.config
    decreases |steps|
  {
    if steps != [] {
      hide SystemInv, Next, Run, Built, Suits;
      var n := |steps| - 1;
      var front := steps[..n];
      var s, t := Run(lib, Initial(rt), front), Run(lib, Initial(rt), steps);
      RunSnoc(lib, Initial(rt), steps);
      OneMoreAtMost(lib, s, steps[n]);
      FrontFits(poll, rt.config, s.accepted, t.accepted);
      KeepsUp(lib, rt, front, poll);
      RunPolled(lib, Initial(rt), steps, poll);
      ClientApart(lib, s, steps[n], Top(s.accepted), s.accepted);
      RunInv(lib, Initial(rt), WithPolls(front, poll));
      StepInv(lib, s.(cursor := Top(s.accepted), delivered := s.accepted), steps[n]);
      PollKeepsUp(lib, t.(cursor := Top(s.accepted), delivered := s.accepted), poll, s.accepted);
    }
  }

  lemma FrontFits(poll: Step, config: Config, acc: seq<Event>, all: seq<Event>)
    requires Suits(poll, config, all) && Ordered(all) && (all != [] ==> all[0].callbackSeq == 1)
    requires all == acc || (|all| == |acc| + 1 && all == acc + [all[|acc|]])
    ensures Suits(poll, config, acc) && Ordered(acc) && (acc != [] ==> acc[0].callbackSeq == 1)
    ensures all == acc || (all != [] && acc == all[..|all| - 1])
  {
    if all != acc {
      SuitsFront(poll, config, acc, all[|acc|]);
      OrderedInit(acc, all[|acc|]);
      assert acc == all[..|all| - 1];
    }
  }

  // ------------------------------------------------------------------------ the loss

  /** An event at or below the cursor is in no later page. */
  lemma PassedStep(lib: Lib, s: System, step: Step, e: Envelope)
    requires e.callbackSeq <= s.cursor && e !in s.delivered
    ensures var t := Next(lib, s, step); e.callbackSeq <= t.cursor && e !in t.delivered
  {
    hide Built, Append, ToWire, PageAfter, DecodeAll;
    if step.Poll? && 1 <= step.limit <= 500 {
      var w := ToWire(lib, PageAfter(s.runtime, s.cursor, step.limit));
      if Accepts(lib, w, s.cursor, step.limit, step.x, step.now) {
        var es := DecodeAll(lib, w.events, step.now).value;
        assert RisesFrom(s.cursor, es);
        assert e !in es;
      }
    }
  }

  lemma {:induction false} PassedForEver(lib: Lib, s: System, steps: seq<Step>, e: Envelope)
    requires e.callbackSeq <= s.cursor && e !in s.delivered
    ensures e !in Run(lib, s, steps).delivered
    decreases |steps|
  {
    hide Next;
    if steps != [] {
      PassedStep(lib, s, steps[0], e);
      PassedForEver(lib, Next(lib, s, steps[0]), steps[1..], e);
    }
  }

  /** Nothing at all is pending for a client above the whole history, and nothing is reported. */
  lemma NothingPending(rt: State, c: nat, limit: nat)
    requires AllUpTo(rt.buffer.events, c)
    ensures var p := PageAfter(rt, c, limit); p.events == [] && !p.cursorLost && !p.hasMore && p.nextCursor == c
  {
    NoneAfter(rt.buffer.events, c);
  }

  lemma {:induction false} NoneAfter(es: seq<Event>, c: nat)
    requires AllUpTo(es, c)
    ensures After(es, c) == []
  {
    if es != [] { NoneAfter(es[1..], c); }
  }

  /** The loss in full. Take any steps of any producers that led to an ordered history from
    number 1 on, and a new event that is then accepted through the regression branch. Had the
    client polled after each step, it would have accepted every page; the late event is
    stored, its next page is empty without `cursor_lost`, and no continuation delivers it. */
  lemma RegressionLosesEvent(lib: Lib, rt: State, steps: seq<Step>, e: Event, when: int, poll: Step, rest: seq<Step>)
    requires LibOk(lib) && Started(rt) && NoPolls(steps)
    requires var s := Run(lib, Initial(rt), steps);
             && NoRegression(s.accepted) && s.accepted != [] && s.accepted[0].callbackSeq == 1
             && Suits(poll, rt.config, s.accepted)
             && e !in s.accepted && Built(lib, e) && Append(s.runtime, e, when).1 == Appended
             && e.callbackSeq <= MaxOf(CallbackNumbers(s.accepted))
    ensures var s, t := Run(lib, Initial(rt), steps), Run(lib, Initial(rt), WithPolls(steps, poll));
            var u := Next(lib, t, Submit(e, when));
            && t.runtime == s.runtime && t.accepted == s.accepted == t.delivered
            && u.accepted == s.accepted + [e] && !NoRegression(u.accepted) && e in u.runtime.buffer.events
            && e.callbackSeq <= u.cursor
            && PageAfter(u.runtime, u.cursor, poll.limit).events == []
            && !PageAfter(u.runtime, u.cursor, poll.limit).cursorLost
            && e !in Run(lib, u, rest).delivered
  {
    var s, t := Run(lib, Initial(rt), steps), Run(lib, Initial(rt), WithPolls(steps, poll));
    StartedInv(lib, rt);
    NoRegressionOrdered(s.accepted);
    KeepsUp(lib, rt, steps, poll);
    RunInv(lib, Initial(rt), steps);
    var u := Next(lib, t, Submit(e, when));
    LateStep(lib, s, e, when);
    hide Next, Run, Built, Suits, SystemInv, Append;
    ClientApart(lib, s, Submit(e, when), Last(s.accepted), s.accepted);
    assert u == Next(lib, s, Submit(e, when)).(cursor := Last(s.accepted), delivered := s.accepted);
    NothingPending(u.runtime, u.cursor, poll.limit);
    PassedForEver(lib, u, rest, e);
  }

  /** A late number is below the last one, and its event breaks the order. */
  lemma LateNumber(acc: seq<Event>, e: Event)
    requires NoRegression(acc) && acc != [] && e.callbackSeq <= MaxOf(CallbackNumbers(acc))
    ensures e.callbackSeq <= Last(acc) && !NoRegression(acc + [e])
  {
    NoRegressionOrdered(acc);
    Snoc(acc, e);
    MaxPositive(acc);
    hide Regressions, MaxOf;
    SkippedStep(CallbackNumbers(acc), e.callbackSeq);
  }

  /** An accepted event that is sent again changes the log only after its eviction, and then it
    takes the regression branch. */
  lemma ResentEvent(lib: Lib, s: System, e: Event, now: int)
    requires LibOk(lib) && Reachable(lib, s) && NoRegression(s.accepted) && e in s.accepted
    ensures var t := Next(lib, s, Submit(e, now));
            || (t.accepted == s.accepted && t.runtime.buffer == s.runtime.buffer)
            || (t.accepted == s.accepted + [e] && e !in s.runtime.buffer.events && !NoRegression(t.accepted))
  {
    hide LibOk, Reachable, Built, Append, NoRegression, CaughtUp, Kept, MaxOf, CallbackNumbers, Next;
    ReachableInv(lib, s);
    NoRegressionOrdered(s.accepted);
    if Built(lib, e) {
      SubmitParts(lib, s, e, now);
      AppendParts(s.runtime, e, now);
      if Append(s.runtime, e, now).1 == Appended {
        BufferedId(s.runtime.buffer, s.runtime.config.maxEvents, s.accepted, e);
        NotAboveLast(s.accepted, e);
        LateNumber(s.accepted, e);
      }
    } else {
      NotBuilt(lib, s, e, now);
    }
  }

  lemma BufferedId(b: Buffer, maxEvents: nat, acc: seq<Event>, e: Event)
    requires Kept(b, maxEvents, acc) && e.eventId !in b.eventIds
    ensures e !in b.events
  {
  }

  lemma NotAboveLast(acc: seq<Event>, e: Event)
    requires Ordered(acc) && e in acc
    ensures e.callbackSeq <= Last(acc)
  {
    var i :| 0 <= i < |acc| && acc[i] == e;
  }

  /** What accepting a late event does to a system with an ordered history. */
  lemma LateStep(lib: Lib, s: System, e: Event, when: int)
    requires SystemInv(lib, s) && NoRegression(s.accepted) && s.accepted != []
    requires Built(lib, e) && Append(s.runtime, e, when).1 == Appended
    requires e.callbackSeq <= MaxOf(CallbackNumbers(s.accepted))
    ensures var u := Next(lib, s, Submit(e, when));
            && u.accepted == s.accepted + [e] && !NoRegression(u.accepted)
            && e in u.runtime.buffer.events && AllUpTo(u.runtime.buffer.events, Last(s.accepted))
    ensures e.callbackSeq <= Last(s.accepted)
  {
    hide Append, Built, NoRegression, Kept, Ordered, Store, AllUpTo, CaughtUp, MaxOf, CallbackNumbers, PageAfter,
      Accepts;
    LateNumber(s.accepted, e);
    NoRegressionOrdered(s.accepted);
    AppendParts(s.runtime, e, when);
    StoredUpTo(s.runtime.buffer, s.runtime.config.maxEvents, e, s.accepted);
  }

  lemma StoredUpTo(b: Buffer, maxEvents: nat, e: Event, acc: seq<Event>)
    requires Kept(b, maxEvents, acc) && Ordered(acc) && acc != [] && e.callbackSeq <= Last(acc)
    ensures e in Store(b, maxEvents, e).events && AllUpTo(Store(b, maxEvents, e).events, Last(acc))
  {
    hide Kept, Ordered;
    var es := Store(b, maxEvents, e).events;
    assert es[|es| - 1] == e;
    BelowLast(b, maxEvents, acc);
    if |b.events| == maxEvents && b.events != [] {
      assert es == b.events[1..] + [e];
    } else {
      assert es == b.events + [e];
    }
  }

  lemma BelowLast(b: Buffer, maxEvents: nat, acc: seq<Event>)
    requires Kept(b, maxEvents, acc) && Ordered(acc) && acc != []
    ensures AllUpTo(b.events, Last(acc))
  {
    forall i | 0 <= i < |b.events| ensures b.events[i].callbackSeq <= Last(acc) {
      assert b.events[i] == acc[b.droppedBufferCount + i];
    }
  }

  // ------------------------------------------------------------------- such a run

  lemma RunFive(lib: Lib, s: System, a: Step, b: Step, c: Step, d: Step, e: Step)
    ensures Run(lib, s, [a, b, c, d, e])
            == Next(lib, Next(lib, Next(lib, Next(lib, Next(lib, s, a), b), c), d), e)
  {
    hide Next, Run;
    RunSnoc(lib, s, [a, b, c, d, e]);
    RunSnoc(lib, s, [a, b, c, d]);
    RunSnoc(lib, s, [a, b, c]);
    RunSnoc(lib, s, [a, b]);
    RunOne(lib, s, a);
    assert [a, b, c, d, e][..4] == [a, b, c, d] && [a, b, c, d][..3] == [a, b, c];
    assert [a, b, c][..2] == [a, b] && [a, b][..1] == [a];
  }

  /** An event that the runtime takes, whatever is in the buffer. */
  ghost predicate Acceptable(lib: Lib, rt: State, e: Event, now: int) {
    Built(lib, e) && Refusal(rt, e, now).None?
  }

  lemma Taken(lib: Lib, s: System, e: Event, now: int)
    requires Acceptable(lib, s.runtime, e, now)
    requires e.eventId !in s.runtime.buffer.eventIds && |s.runtime.buffer.events| < s.runtime.config.maxEvents
    ensures var t := Next(lib, s, Submit(e, now));
            && t.accepted == s.accepted + [e] && t.pending == s.pending - {e.callbackSeq}
            && t.runtime.buffer.events == s.runtime.buffer.events + [e]
            && t.runtime.buffer.eventIds == s.runtime.buffer.eventIds + {e.eventId}
            && t.runtime.config == s.runtime.config && t.runtime.link == s.runtime.link
            && Append(s.runtime, e, now).1 == Appended
  {
    hide Refusal, Built, CountCallback, CountProvider, Record;
  }

  lemma AcceptableLater(lib: Lib, rt: State, later: State, e: Event, now: int)
    requires Acceptable(lib, rt, e, now) && later.config == rt.config && later.link == rt.link
    ensures Acceptable(lib, later, e, now)
  {
    hide Built, TimesOk;
  }

  lemma ThreeNumbers(lib: Lib, rt: State)
    requires rt.allocator.callbackSeq == 0
    ensures var t := Next(lib, Next(lib, Next(lib, Initial(rt), Allocate), Allocate), Allocate);
            && t.pending == {1, 2, 3} && t.accepted == [] && t.runtime.buffer == rt.buffer
            && t.runtime.config == rt.config && t.runtime.link == rt.link
  {
  }

  /** Two producers race: of three numbers handed out, the second is submitted last. */
  function Race(one: Event, three: Event, now: int): seq<Step> {
    [Allocate, Allocate, Allocate, Submit(one, now), Submit(three, now)]
  }

  lemma RaceRun(lib: Lib, rt: State, one: Event, two: Event, three: Event, now: int)
    requires Started(rt) && one.callbackSeq == 1 && two.callbackSeq == 2 && three.callbackSeq == 3
    requires Acceptable(lib, rt, one, now) && Acceptable(lib, rt, two, now) && Acceptable(lib, rt, three, now)
    requires one.eventId != two.eventId && two.eventId != three.eventId && one.eventId != three.eventId
    ensures var s := Run(lib, Initial(rt), Race(one, three, now));
            && s.accepted == [one, three] && s.pending == {2} && s.runtime.config == rt.config
            && Append(s.runtime, two, now).1 == Appended
  {
    hide Next, Acceptable, Append, Started, Run;
    StartedNumbers(rt);
    ThreeNumbers(lib, rt);
    RunFive(lib, Initial(rt), Allocate, Allocate, Allocate, Submit(one, now), Submit(three, now));
    var s3 := Next(lib, Next(lib, Next(lib, Initial(rt), Allocate), Allocate), Allocate);
    AcceptableLater(lib, rt, s3.runtime, one, now);
    Taken(lib, s3, one, now);
    var s4 := Next(lib, s3, Submit(one, now));
    AcceptableLater(lib, rt, s4.runtime, three, now);
    Taken(lib, s4, three, now);
    var s5 := Next(lib, s4, Submit(three, now));
    AcceptableLater(lib, rt, s5.runtime, two, now);
    Taken(lib, s5, two, now);
    assert s5.accepted == [one, three];
  }

  lemma StartedNumbers(rt: State)
    requires Started(rt)
    ensures rt.allocator.callbackSeq == 0 && rt.config.maxEvents >= MIN_EVENTS
    ensures rt.buffer == Buffer([], {}, 0)
  {
  }

  /** For any three events with the first three numbers, the race loses the second: a client that
    polls after every step gets the first and the third, and never the second. */
  lemma RacingProducersLoseSilently(lib: Lib, rt: State, one: Event, two: Event, three: Event, now: int,
                                    poll: Step, rest: seq<Step>)
    requires LibOk(lib) && Started(rt)
    requires one.callbackSeq == 1 && two.callbackSeq == 2 && three.callbackSeq == 3
    requires Acceptable(lib, rt, one, now) && Acceptable(lib, rt, two, now) && Acceptable(lib, rt, three, now)
    requires one.eventId != two.eventId && two.eventId != three.eventId && one.eventId != three.eventId
    requires Suits(poll, rt.config, [one, three])
    ensures var t := Run(lib, Initial(rt), WithPolls(Race(one, three, now), poll));
            var u := Next(lib, t, Submit(two, now));
            && t.delivered == [one, three] && two in u.runtime.buffer.events
            && !PageAfter(u.runtime, u.cursor, poll.limit).cursorLost
            && two !in Run(lib, u, rest).delivered
  {
    hide Run, Next, Started, Append, Suits, LibOk, CallbackNumbers, NoRegression, PageAfter;
    RaceRun(lib, rt, one, two, three, now);
    RisingPair(one, three);
    var steps := Race(one, three, now);
    assert NoPolls(steps);
    AcceptableBuilt(lib, rt, two, now);
    RegressionLosesEvent(lib, rt, steps, two, now, poll, rest);
  }

  lemma AcceptableBuilt(lib: Lib, rt: State, e: Event, now: int)
    requires Acceptable(lib, rt, e, now)
    ensures Built(lib, e)
  {
    hide Built;
  }

  lemma RisingPair(one: Event, three: Event)
    requires one.callbackSeq == 1 && three.callbackSeq == 3
    ensures NoRegression([one, three]) && MaxOf(CallbackNumbers([one, three])) == 3
  {
    NoRegressionOrdered([one, three]);
  }

  // ------------------------------------------------------------- inversions in one page

  /** An inversion inside one page stops the client: whatever it expects, it neither advances
    nor keeps an event of the page. */
  lemma InversionStops(lib: Lib, s: System, limit: nat, x: Expectation, now: int, i: nat, j: nat)
    requires LibOk(lib) && SystemInv(lib, s)
    requires var p := PageAfter(s.runtime, s.cursor, limit);
             i < j < |p.events| && p.events[i].callbackSeq >= p.events[j].callbackSeq
    ensures Next(lib, s, Poll(limit, x, now)) == s
  {
    if 1 <= limit <= 500 {
      InversionRefused(lib, s.runtime, s.accepted, s.cursor, limit, x, now, i, j);
    }
    hide PageAfter, SystemInv, LibOk, Accepts, ToWire, DecodeAll, Next;
    RefusedPoll(lib, s, limit, x, now);
  }

  /** What a fitting client whose cursor is not lost answers is `NotOrdered`, by the contract of
    `SidecarClient.Events`. */
  lemma InversionReported(lib: Lib, rt: State, acc: seq<Event>, c: nat, limit: nat, x: Expectation, now: int,
                          i: nat, j: nat)
    requires LibOk(lib) && Holds(rt, acc) && AllBuilt(lib, acc) && limit >= 1
    requires IdentifierText(rt.config.sessionId) && (x.sessionId.Some? ==> x.sessionId.value == rt.config.sessionId)
    requires var p := PageAfter(rt, c, limit);
             && !p.cursorLost && AllFresh(p.events, now)
             && (forall k | 0 <= k < |p.events| :: EventFits(p.events[k], rt.config.sessionId, x))
             && i < j < |p.events| && p.events[i].callbackSeq >= p.events[j].callbackSeq
    ensures var p := PageAfter(rt, c, limit);
            && DecodeAll(lib, ToWire(lib, p).events, now) == Some(p.events)
            && OnlyDisordered(ToWire(lib, p), p.events, c, limit, x)
  {
    var p := PageAfter(rt, c, limit);
    PageBuilt(lib, rt, acc, c, limit);
    PageHead(rt, c, limit);
    NotRising(c, p.events, i, j);
    hide PageAfter, LibOk, DecodeAll, AllBuilt, Kept, EventFits, TimesOk, IdentifierText, RisesFrom, WireEvents;
    DecodeHonest(lib, p.events, now);
    DisorderedPage(lib, p, c, limit, x);
  }

  lemma DisorderedPage(lib: Lib, p: Page, c: nat, limit: nat, x: Expectation)
    requires !p.cursorLost && p.after == c && p.nextCursor >= c && |p.events| <= limit
    requires IdentifierText(p.sessionId) && (x.sessionId.Some? ==> x.sessionId.value == p.sessionId)
    requires p.events != [] ==> p.oldestCursor <= p.events[0].callbackSeq
    requires forall k | 0 <= k < |p.events| :: EventFits(p.events[k], p.sessionId, x)
    requires !RisesFrom(c, p.events)
    ensures OnlyDisordered(ToWire(lib, p), p.events, c, limit, x)
  {
    hide EventFits, IdentifierText, RisesFrom, WireEvents;
    WireLength(lib, p.events);
  }

  lemma {:induction false} WireLength(lib: Lib, es: seq<Event>)
    ensures |WireEvents(lib, es)| == |es|
  {
    if es != [] { WireLength(lib, es[1..]); }
  }

  lemma {:induction false} FirstAbove(es: seq<Event>, c: nat)
    requires es != [] && After(es, c) != []
    ensures After(es, c)[0].callbackSeq > c && (es[0].callbackSeq > c ==> After(es, c)[0] == es[0])
  {
    if es[0].callbackSeq <= c {
      FirstAbove(es[1..], c);
    }
  }

  /** A page's first event is not below the oldest one, and its cursor does not go back. */
  lemma PageHead(rt: State, c: nat, limit: nat)
    requires limit >= 1
    ensures var p := PageAfter(rt, c, limit);
            && p.after == c && p.nextCursor >= c && |p.events| <= limit && p.sessionId == rt.config.sessionId
            && (p.events != [] ==> p.oldestCursor <= p.events[0].callbackSeq)
  {
    var es := rt.buffer.events;
    AfterIn(es, c);
    var p := PageAfter(rt, c, limit);
    if p.events != [] {
      assert p.events[0] == After(es, c)[0];
      FirstAbove(es, c);
      assert p.events[|p.events| - 1] in After(es, c);
    }
  }

  lemma RefusedPoll(lib: Lib, s: System, limit: nat, x: Expectation, now: int)
    requires 1 <= limit <= 500 ==>
               !Accepts(lib, ToWire(lib, PageAfter(s.runtime, s.cursor, limit)), s.cursor, limit, x, now)
    ensures Next(lib, s, Poll(limit, x, now)) == s
  {
    hide PageAfter, Accepts, ToWire, DecodeAll, Append, Do;
  }

  lemma InversionRefused(lib: Lib, rt: State, acc: seq<Event>, c: nat, limit: nat, x: Expectation, now: int,
                         i: nat, j: nat)
    requires LibOk(lib) && Holds(rt, acc) && AllBuilt(lib, acc)
    requires var p := PageAfter(rt, c, limit);
             i < j < |p.events| && p.events[i].callbackSeq >= p.events[j].callbackSeq
    ensures !Accepts(lib, ToWire(lib, PageAfter(rt, c, limit)), c, limit, x, now)
  {
    var p := PageAfter(rt, c, limit);
    PageBuilt(lib, rt, acc, c, limit);
    hide PageAfter, LibOk, DecodeAll, AllBuilt, Kept;
    DecodeHonest(lib, p.events, now);
    NotRising(c, p.events, i, j);
    hide RisesFrom, AllFresh, ArgumentsOk, IdentifierText, WireEvents;
  }

  lemma NotRising(c: int, es: seq<Event>, i: nat, j: nat)
    requires i < j < |es| && es[i].callbackSeq >= es[j].callbackSeq
    ensures !RisesFrom(c, es)
  {
  }

  lemma PageBuilt(lib: Lib, rt: State, acc: seq<Event>, c: nat, limit: nat)
    requires Holds(rt, acc) && AllBuilt(lib, acc)
    ensures AllBuilt(lib, PageAfter(rt, c, limit).events)
  {
    hide Built;
    var es := rt.buffer.events;
    var p := PageAfter(rt, c, limit);
    AfterIn(es, c);
    forall i | 0 <= i < |p.events| ensures Built(lib, p.events[i]) {
      assert p.events[i] in After(es, c);
      var k :| 0 <= k < |es| && es[k] == p.events[i];
      assert es[k] == acc[rt.buffer.droppedBufferCount + k];
    }
  }
}
