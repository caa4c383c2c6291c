/** A client that catches up: polling an idle sidecar until `has_more` is false. */
module DrainRuns {
  import opened Prelude
  import opened Envelopes
  import opened SidecarState
  import opened RuntimeInvariants
  import opened SidecarClient
  import opened EventDelivery
  import opened DeliveryRuns

  function Repeat(poll: Step, n: nat): seq<Step> {
    if n == 0 then [] else [poll] + Repeat(poll, n - 1)
  }

  /** Nothing hinders the client's polls: cursor not lost, clock and expectations fit what is
    pending. */
  ghost predicate Ready(s: System, poll: Step) {
    && poll.Poll? && 1 <= poll.limit <= 500 && ArgumentsOk(s.cursor, poll.limit, poll.x)
    && IdentifierText(s.runtime.config.sessionId)
    && (poll.x.sessionId.Some? ==> poll.x.sessionId.value == s.runtime.config.sessionId)
    && !PageAfter(s.runtime, s.cursor, poll.limit).cursorLost
    && Welcome(After(s.accepted, s.cursor), s.runtime.config.sessionId, poll)
  }

  ghost predicate Welcome(es: seq<Event>, session: string, poll: Step)
    requires poll.Poll?
  {
    AllFresh(es, poll.now) && forall i | 0 <= i < |es| :: EventFits(es[i], session, poll.x)
  }

  lemma WelcomeParts(a: seq<Event>, b: seq<Event>, session: string, poll: Step)
    requires poll.Poll? && Welcome(a + b, session, poll)
    ensures Welcome(a, session, poll) && Welcome(b, session, poll)
  {
    hide TimesOk, EventFits;
    assert forall i | 0 <= i < |a| :: (a + b)[i] == a[i];
    assert forall i | 0 <= i < |b| :: (a + b)[|a| + i] == b[i];
  }

  lemma PendingStarts(s: System, limit: nat)
    requires Holds(s.runtime, s.accepted) && Ordered(s.accepted) && limit >= 1
    requires !PageAfter(s.runtime, s.cursor, limit).cursorLost
    ensures var p := PageAfter(s.runtime, s.cursor, limit);
            exists rest :: After(s.accepted, s.cursor) == p.events + rest
  {
    if PageAfter(s.runtime, s.cursor, limit).hasMore {
      DrainMore(s.runtime, s.accepted, s.cursor, limit);
    } else {
      DrainLast(s.runtime, s.accepted, s.cursor, limit);
      hide After, PageAfter;
      var p := PageAfter(s.runtime, s.cursor, limit);
      assert p.events + [] == p.events;
    }
  }

  lemma ReadyPoll(lib: Lib, s: System, poll: Step)
    requires LibOk(lib) && SystemInv(lib, s) && Ordered(s.accepted) && Ready(s, poll)
    ensures Next(lib, s, poll) == Advanced(s, PageAfter(s.runtime, s.cursor, poll.limit))
  {
    hide PageAfter, Built, Kept, Ordered, CaughtUp, Accepts, ArgumentsOk, IdentifierText, DecodeAll, EventFits, TimesOk,
      Next, Advanced, ToWire, After;
    PageWelcome(s, poll);
    HonestPageAccepted(lib, s.runtime, s.accepted, s.cursor, poll.limit, poll.x, poll.now);
    AcceptedPoll(lib, s, poll);
  }

  lemma PageWelcome(s: System, poll: Step)
    requires Holds(s.runtime, s.accepted) && Ordered(s.accepted) && Ready(s, poll)
    ensures Welcome(PageAfter(s.runtime, s.cursor, poll.limit).events, s.runtime.config.sessionId, poll)
  {
    hide PageAfter, Kept, Ordered, ArgumentsOk, IdentifierText, Welcome, After;
    PendingStarts(s, poll.limit);
    var p := PageAfter(s.runtime, s.cursor, poll.limit);
    var rest :| After(s.accepted, s.cursor) == p.events + rest;
    WelcomeParts(p.events, rest, s.runtime.config.sessionId, poll);
  }

  /** A poll that has more leaves the client ready for the next one. */
  lemma StaysReady(s: System, poll: Step)
    requires Holds(s.runtime, s.accepted) && Ordered(s.accepted) && Ready(s, poll)
    requires PageAfter(s.runtime, s.cursor, poll.limit).hasMore
    ensures Ready(Advanced(s, PageAfter(s.runtime, s.cursor, poll.limit)), poll)
  {
    var p := PageAfter(s.runtime, s.cursor, poll.limit);
    DrainMore(s.runtime, s.accepted, s.cursor, poll.limit);
    StillThere(s.runtime, s.cursor, p.nextCursor, poll.limit);
    hide PageAfter, After, Kept, Ordered, EventFits, TimesOk, IdentifierText, FeedModeOk, SymbolText;
    WelcomeParts(p.events, After(s.accepted, p.nextCursor), s.runtime.config.sessionId, poll);
  }

  /** A poll that has no more leaves nothing. */
  lemma LastPoll(s: System, limit: nat)
    requires Holds(s.runtime, s.accepted) && Ordered(s.accepted) && limit >= 1
    requires CaughtUp(s.accepted, s.cursor, s.delivered)
    requires var p := PageAfter(s.runtime, s.cursor, limit); !p.cursorLost && !p.hasMore
    ensures var t := Advanced(s, PageAfter(s.runtime, s.cursor, limit));
            && t.delivered == s.accepted
            && PageAfter(s.runtime, t.cursor, limit).events == [] && !PageAfter(s.runtime, t.cursor, limit).hasMore
  {
    hide Kept, Ordered, PageAfter, After;
    var k, m := PageContinues(s.runtime, s.accepted, s.cursor, limit);
    assert m == |s.accepted| && s.accepted[..k] + s.accepted[k..m] == s.accepted;
    LastCursor(s.runtime, s.cursor, limit);
    NothingLeft(s.runtime, PageAfter(s.runtime, s.cursor, limit).nextCursor, limit);
  }

  lemma LastCursor(rt: State, c: nat, limit: nat)
    requires !PageAfter(rt, c, limit).hasMore
    ensures After(rt.buffer.events, PageAfter(rt, c, limit).nextCursor) == []
  {
  }

  lemma NothingLeft(rt: State, c: nat, limit: nat)
    requires After(rt.buffer.events, c) == []
    ensures PageAfter(rt, c, limit).events == [] && !PageAfter(rt, c, limit).hasMore
  {
  }

  lemma MoreStep(lib: Lib, s: System, poll: Step)
    requires LibOk(lib) && SystemInv(lib, s) && Ordered(s.accepted) && Ready(s, poll)
    requires PageAfter(s.runtime, s.cursor, poll.limit).hasMore
    ensures var t := Advanced(s, PageAfter(s.runtime, s.cursor, poll.limit));
            && Next(lib, s, poll) == t && SystemInv(lib, t) && Ready(t, poll)
            && |After(s.accepted, s.cursor)| == |After(s.accepted, t.cursor)| + poll.limit
            && |After(s.accepted, t.cursor)| > 0
  {
    DrainMore(s.runtime, s.accepted, s.cursor, poll.limit);
    StaysReady(s, poll);
    hide SystemInv, Ready, Next, PageAfter, After, Ordered, Kept;
    ReadyPoll(lib, s, poll);
    StepInv(lib, s, poll);
  }

  lemma LastStep(lib: Lib, s: System, poll: Step)
    requires LibOk(lib) && SystemInv(lib, s) && Ordered(s.accepted) && Ready(s, poll)
    requires !PageAfter(s.runtime, s.cursor, poll.limit).hasMore
    ensures var t := Advanced(s, PageAfter(s.runtime, s.cursor, poll.limit));
            && Next(lib, s, poll) == t && t.delivered == s.accepted
            && PageAfter(s.runtime, t.cursor, poll.limit).events == []
            && !PageAfter(s.runtime, t.cursor, poll.limit).hasMore
    ensures PollsFor(1, |After(s.accepted, s.cursor)|, poll.limit)
  {
    DrainLast(s.runtime, s.accepted, s.cursor, poll.limit);
    LastPoll(s, poll.limit);
    hide SystemInv, Ready, Next, PageAfter, After, Ordered, Kept, PollsFor;
    ReadyPoll(lib, s, poll);
    OnePage(|PageAfter(s.runtime, s.cursor, poll.limit).events|, poll.limit);
  }

  ghost predicate Idle(lib: Lib, s: System, poll: Step) {
    && LibOk(lib) && SystemInv(lib, s) && Ordered(s.accepted)
    && poll.Poll? && poll.limit >= 1 && Ready(s, poll)
  }

  /** The client has everything, and the sidecar, unchanged, has no more. */
  ghost predicate Drained(s: System, t: System, limit: nat) {
    && t.delivered == t.accepted == s.accepted && t.runtime == s.runtime
    && PageAfter(t.runtime, t.cursor, limit).events == []
    && !PageAfter(t.runtime, t.cursor, limit).hasMore
  }

  /** One poll of a client that drains: it is done, or a full page less is pending. */
  lemma DrainPoll(lib: Lib, s: System, poll: Step)
    requires Idle(lib, s, poll)
    ensures var k, t := |After(s.accepted, s.cursor)|, Next(lib, s, poll);
            || (Drained(s, t, poll.limit) && PollsFor(1, k, poll.limit))
            || (&& Idle(lib, t, poll) && t.accepted == s.accepted && t.runtime == s.runtime
                && k == |After(t.accepted, t.cursor)| + poll.limit && |After(t.accepted, t.cursor)| > 0)
  {
    hide Next, PageAfter, After, LibOk, Ordered, SystemInv, PollsFor, Ready;
    if PageAfter(s.runtime, s.cursor, poll.limit).hasMore {
      MoreStep(lib, s, poll);
    } else {
      LastStep(lib, s, poll);
    }
  }

  /** The whole drain, through the client: from any state that an ordered run reached, with no
    producer step in between, max(1, ceil(k / limit)) accepted polls deliver all k pending
    events, and the sidecar then has no more. */
  lemma {:induction false} DrainRun(lib: Lib, s: System, poll: Step) returns (n: nat)
    requires poll.Poll? && poll.limit >= 1 && Idle(lib, s, poll)
    ensures PollsFor(n, |After(s.accepted, s.cursor)|, poll.limit)
    ensures Drained(s, Run(lib, s, Repeat(poll, n)), poll.limit)
    decreases |After(s.accepted, s.cursor)|
  {
    hide Idle, Next, PageAfter, PollsFor, After, Run, Repeat;
    DrainPoll(lib, s, poll);
    var t := Next(lib, s, poll);
    if Drained(s, t, poll.limit) && PollsFor(1, |After(s.accepted, s.cursor)|, poll.limit) {
      n := 1;
      RepeatMore(lib, s, poll, 0);
    } else {
      var m := DrainRun(lib, t, poll);
      OneMorePage(m, poll.limit, |After(t.accepted, t.cursor)|);
      n := m + 1;
      RepeatMore(lib, s, poll, m);
    }
  }

  lemma RepeatMore(lib: Lib, s: System, poll: Step, m: nat)
    ensures Run(lib, s, Repeat(poll, m + 1)) == Run(lib, Next(lib, s, poll), Repeat(poll, m))
    ensures m == 0 ==> Run(lib, s, Repeat(poll, m + 1)) == Next(lib, s, poll)
  {
    hide Next;
    assert Repeat(poll, m + 1)[1..] == Repeat(poll, m);
  }

  /** The same for every state that producers and client can reach without a regression. */
  lemma ReachableDrain(lib: Lib, s: System, poll: Step) returns (n: nat)
    requires LibOk(lib) && Reachable(lib, s) && NoRegression(s.accepted) && Ready(s, poll)
    ensures |s.accepted| >= |s.delivered| && PollsFor(n, |s.accepted| - |s.delivered|, poll.limit)
    ensures Drained(s, Run(lib, s, Repeat(poll, n)), poll.limit)
  {
    ReachableInv(lib, s);
    NoRegressionOrdered(s.accepted);
    PendingCount(s, poll.limit);
    hide Ready, Reachable, SystemInv, PollsFor, Run, PageAfter, After, Ordered, NoRegression, LibOk;
    n := DrainRun(lib, s, poll);
  }

  lemma PendingCount(s: System, limit: nat)
    requires Holds(s.runtime, s.accepted) && Ordered(s.accepted) && CaughtUp(s.accepted, s.cursor, s.delivered)
    requires limit >= 1 && !PageAfter(s.runtime, s.cursor, limit).cursorLost
    ensures |After(s.accepted, s.cursor)| == |s.accepted| - |s.delivered|
  {
    var k, m := PageContinues(s.runtime, s.accepted, s.cursor, limit);
  }
}
