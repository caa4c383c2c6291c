/** When a client can lose an event without a word: the exact condition on what the producers did,
  over all ways to place polls between their steps. */
module SilentLosses {
  import opened Prelude
  import opened Envelopes
  import opened SidecarState
  import opened RuntimeInvariants
  import opened SidecarClient
  import opened EventDelivery
  import opened DeliveryRuns
  import opened RacingProducers
  import opened Schedules

  // ------------------------------------------------------------------- what a loss is

  /** An accepted event the client has not got and cannot get: passed by its cursor or evicted. */
  ghost predicate Gone(s: System, e: Event) {
    && e in s.accepted && e !in s.delivered
    && (e.callbackSeq <= s.cursor || e !in s.runtime.buffer.events)
  }

  /** The page the client would get says nothing about it. */
  ghost predicate SilentLoss(s: System, e: Event) { Gone(s, e) && !PageAfter(s.runtime, s.cursor, 1).cursorLost }

  ghost predicate NeverSent(steps: seq<Step>, e: Event) {
    forall i | 0 <= i < |steps| :: steps[i].Submit? ==> steps[i].e != e
  }

  lemma PageMembers(rt: State, c: nat, limit: nat)
    ensures forall e | e in PageAfter(rt, c, limit).events :: e in rt.buffer.events && e.callbackSeq > c
  {
    AfterIn(rt.buffer.events, c);
  }

  lemma PollGone(lib: Lib, s: System, limit: nat, x: Expectation, now: int, e: Event)
    requires LibOk(lib) && SystemInv(lib, s) && Gone(s, e)
    ensures Gone(Next(lib, s, Poll(limit, x, now)), e)
  {
    hide LibOk, Built, Kept, CaughtUp, PageAfter, DecodeAll, Ordered, Subscribed;
    var w := ToWire(lib, PageAfter(s.runtime, s.cursor, limit));
    if 1 <= limit <= 500 && Accepts(lib, w, s.cursor, limit, x, now) {
      PageMembers(s.runtime, s.cursor, limit);
      PageBuilt(lib, s.runtime, s.accepted, s.cursor, limit);
      DecodeHonest(lib, PageAfter(s.runtime, s.cursor, limit).events, now);
      AcceptedPoll(lib, s, Poll(limit, x, now));
    } else {
      hide Accepts, Gone, ToWire;
      RefusedPoll(lib, s, limit, x, now);
    }
  }

  lemma SubmitGone(lib: Lib, s: System, f: Event, now: int, e: Event)
    requires Gone(s, e) && e != f
    ensures Gone(Next(lib, s, Submit(f, now)), e)
  {
    hide Built, Append;
    AppendParts(s.runtime, f, now);
  }

  lemma StepGone(lib: Lib, s: System, step: Step, e: Event)
    requires LibOk(lib) && SystemInv(lib, s) && Gone(s, e) && (step.Submit? ==> step.e != e)
    ensures Gone(Next(lib, s, step), e)
  {
    match step
    case Allocate =>
    case Submit(f, now) => SubmitGone(lib, s, f, now, e);
    case Abandon(n) =>
    case Housekeeping(c) => HousekeepingApart(lib, s, c);
    case Poll(limit, x, now) => PollGone(lib, s, limit, x, now, e);
  }

  lemma HousekeepingApart(lib: Lib, s: System, c: Call)
    ensures var t := Next(lib, s, Housekeeping(c));
            && t.runtime.buffer == s.runtime.buffer
            && t.accepted == s.accepted && t.cursor == s.cursor && t.delivered == s.delivered
  {
  }

  /** What is gone stays gone, whatever the producers and the client do, unless it is sent again. */
  lemma {:induction false} GoneForEver(lib: Lib, s: System, steps: seq<Step>, e: Event)
    requires LibOk(lib) && SystemInv(lib, s) && Gone(s, e) && NeverSent(steps, e)
    ensures Gone(Run(lib, s, steps), e)
    decreases |steps|
  {
    hide LibOk, SystemInv, Gone, Next;
    if steps != [] {
      StepGone(lib, s, steps[0], e);
      StepInv(lib, s, steps[0]);
      GoneForEver(lib, Next(lib, s, steps[0]), steps[1..], e);
    }
  }

  // ------------------------------------------------------------ what a loss cannot do without

  /** An event with number 1 was at some time the oldest one in the buffer. */
  ghost predicate Surfaced(acc: seq<Event>, maxEvents: nat) {
    exists k | 0 <= k < |acc| :: SurfacedAt(acc, maxEvents, k)
  }

  ghost predicate SurfacedAt(acc: seq<Event>, maxEvents: nat, k: nat)
    requires k < |acc|
  {
    acc[k].callbackSeq == 1 && (k == 0 || k + maxEvents <= |acc|)
  }

  lemma SurfacedMore(acc: seq<Event>, all: seq<Event>, maxEvents: nat)
    requires acc <= all && Surfaced(acc, maxEvents)
    ensures Surfaced(all, maxEvents)
  {
    var k :| 0 <= k < |acc| && SurfacedAt(acc, maxEvents, k);
    assert SurfacedAt(all, maxEvents, k);
  }

  /** Until then every page is empty or lost for a client at cursor 0. */
  lemma HeadNotFirst(rt: State, acc: seq<Event>, limit: nat)
    requires Holds(rt, acc) && !Surfaced(acc, rt.config.maxEvents)
    ensures rt.buffer.events != [] ==> PageAfter(rt, 0, limit).cursorLost
    ensures rt.buffer.events == [] ==> PageAfter(rt, 0, limit).events == [] && PageAfter(rt, 0, limit).nextCursor == 0
  {
    var d := rt.buffer.droppedBufferCount;
    if rt.buffer.events != [] {
      assert rt.buffer.events[0] == acc[d];
      assert !SurfacedAt(acc, rt.config.maxEvents, d);
    }
  }

  /** A client that has not come off the ground. */
  ghost predicate Dormant(s: System) { s.cursor == 0 && s.delivered == [] }

  ghost predicate AsleepUntil(s: System) { !Surfaced(s.accepted, s.runtime.config.maxEvents) ==> Dormant(s) }

  lemma AsleepPoll(lib: Lib, s: System, limit: nat, x: Expectation, now: int)
    requires LibOk(lib) && SystemInv(lib, s) && AsleepUntil(s)
    ensures AsleepUntil(Next(lib, s, Poll(limit, x, now)))
  {
    hide LibOk, Built, Kept, CaughtUp, PageAfter, DecodeAll, Ordered, Subscribed, Surfaced;
    var w := ToWire(lib, PageAfter(s.runtime, s.cursor, limit));
    if 1 <= limit <= 500 && Accepts(lib, w, s.cursor, limit, x, now) {
      PageBuilt(lib, s.runtime, s.accepted, s.cursor, limit);
      DecodeHonest(lib, PageAfter(s.runtime, s.cursor, limit).events, now);
      AcceptedPoll(lib, s, Poll(limit, x, now));
      if !Surfaced(s.accepted, s.runtime.config.maxEvents) {
        HeadNotFirst(s.runtime, s.accepted, limit);
      }
    } else {
      hide Accepts, ToWire;
      RefusedPoll(lib, s, limit, x, now);
    }
  }

  lemma AsleepStep(lib: Lib, s: System, step: Step)
    requires LibOk(lib) && SystemInv(lib, s) && AsleepUntil(s)
    ensures AsleepUntil(Next(lib, s, step))
  {
    hide LibOk, SystemInv, Surfaced, Built;
    if step.Poll? {
      AsleepPoll(lib, s, step.limit, step.x, step.now);
    } else {
      hide Next;
      ClientApart(lib, s, step, s.cursor, s.delivered);
      OneMoreAtMost(lib, s, step);
      var t := Next(lib, s, step);
      if Surfaced(s.accepted, s.runtime.config.maxEvents) {
        SurfacedMore(s.accepted, t.accepted, s.runtime.config.maxEvents);
      }
    }
  }

  lemma {:induction false} AsleepRun(lib: Lib, s: System, steps: seq<Step>)
    requires LibOk(lib) && SystemInv(lib, s) && AsleepUntil(s)
    ensures AsleepUntil(Run(lib, s, steps))
    decreases |steps|
  {
    hide LibOk, SystemInv, AsleepUntil, Next;
    if steps != [] {
      AsleepStep(lib, s, steps[0]);
      StepInv(lib, s, steps[0]);
      AsleepRun(lib, Next(lib, s, steps[0]), steps[1..]);
    }
  }

  lemma ReachableAsleep(lib: Lib, s: System)
    requires LibOk(lib) && Reachable(lib, s)
    ensures AsleepUntil(s)
  {
    hide Started, SystemInv, LibOk, Surfaced;
    var rt, steps :| Started(rt) && s == Run(lib, Initial(rt), steps);
    StartedInv(lib, rt);
    AsleepRun(lib, Initial(rt), steps);
  }

  /** While number 1 has not been the oldest in the buffer, in particular when it was never accepted,
    a client that starts at cursor 0 has nothing and every page with something in the buffer tells
    it that its cursor is lost, in whatever order events arrive. */
  lemma NothingBeforeFirst(lib: Lib, s: System, limit: nat)
    requires LibOk(lib) && Reachable(lib, s) && !Surfaced(s.accepted, s.runtime.config.maxEvents)
    ensures Dormant(s)
    ensures s.accepted != [] ==> PageAfter(s.runtime, s.cursor, limit).cursorLost
  {
    hide LibOk, PageAfter, Reachable, Surfaced, Built;
    ReachableInv(lib, s);
    ReachableAsleep(lib, s);
    HeadNotFirst(s.runtime, s.accepted, limit);
  }

  /** In an ordered history what the client misses and cannot get was evicted, and is reported. */
  lemma OrderedReports(lib: Lib, s: System, e: Event)
    requires LibOk(lib) && Reachable(lib, s) && NoRegression(s.accepted)
    ensures !SilentLoss(s, e)
  {
    hide LibOk, PageAfter, Reachable, Built, NoRegression;
    if Gone(s, e) {
      ReachableInv(lib, s);
      NoRegressionOrdered(s.accepted);
      GoneIsLost(s.runtime, s.accepted, s.cursor, s.delivered, e);
      NoSilentLoss(lib, s, 1);
    }
  }

  lemma {:induction false} InUpTo(es: seq<Event>, e: Event, c: nat)
    requires e in es && e.callbackSeq <= c
    ensures e in UpTo(es, c)
  {
    if es[0] != e {
      assert es == [es[0]] + es[1..];
      InUpTo(es[1..], e, c);
    }
  }

  lemma GoneIsLost(rt: State, acc: seq<Event>, cursor: nat, delivered: seq<Envelope>, e: Event)
    requires Holds(rt, acc) && CaughtUp(acc, cursor, delivered)
    requires e in acc && e !in delivered && (e.callbackSeq <= cursor || e !in rt.buffer.events)
    ensures ReallyLost(acc, rt.buffer.droppedBufferCount, cursor)
  {
    if e.callbackSeq <= cursor {
      InUpTo(acc, e, cursor);
    } else {
      var i :| 0 <= i < |acc| && acc[i] == e;
      StillBuffered(rt, acc);
    }
  }

  lemma StillBuffered(rt: State, acc: seq<Event>)
    requires Holds(rt, acc)
    ensures forall i | rt.buffer.droppedBufferCount <= i < |acc| :: acc[i] in rt.buffer.events
  {
    var d := rt.buffer.droppedBufferCount;
    forall i | d <= i < |acc| ensures acc[i] in rt.buffer.events {
      InTail(acc, d, i);
    }
  }

  lemma InTail(acc: seq<Event>, d: nat, i: nat)
    requires d <= i < |acc|
    ensures acc[i] in acc[d..]
  {
    assert acc[d..][i - d] == acc[i];
  }

  /** A silent loss needs a regression and a number 1 that came to be the oldest. */
  lemma LossNeeds(lib: Lib, s: System, e: Event)
    requires LibOk(lib) && Reachable(lib, s) && SilentLoss(s, e)
    ensures !NoRegression(s.accepted) && Surfaced(s.accepted, s.runtime.config.maxEvents)
  {
    hide LibOk, Reachable, NoRegression, Surfaced;
    if NoRegression(s.accepted) {
      OrderedReports(lib, s, e);
    }
    if !Surfaced(s.accepted, s.runtime.config.maxEvents) {
      NothingBeforeFirst(lib, s, 1);
    }
  }

  // ------------------------------------------------------------------- how it comes about

  /** A poll whose client expects nothing in particular and has a late clock. */
  function EasyPoll(): Step { Poll(1, Expectation(None, None, None, 1, 1), INSTANT_LIMIT) }

  lemma EasyPollSuits(lib: Lib, config: Config, acc: seq<Event>)
    requires AllBuilt(lib, acc) && Subscribed(config, acc) && acc != []
    ensures Suits(EasyPoll(), config, acc)
  {
    forall i | 0 <= i < |acc|
      ensures TimesOk(acc[i], INSTANT_LIMIT) && EventFits(acc[i], config.sessionId, EasyPoll().x)
    {
      assert acc[i] in acc;
    }
    assert Built(lib, acc[0]) && acc[0] in acc;
  }

  lemma {:induction false} FirstRegression(acc: seq<Event>) returns (j: nat)
    requires !NoRegression(acc)
    ensures 0 < j < |acc| && NoRegression(acc[..j]) && acc[j].callbackSeq <= MaxOf(CallbackNumbers(acc[..j]))
  {
    var n := |acc| - 1;
    var front := acc[..n];
    if NoRegression(front) {
      j := n;
      MaxPositive(front);
      hide Regressions, MaxOf;
      SkippedStep(CallbackNumbers(front), acc[n].callbackSeq);
    } else {
      j := FirstRegression(front);
      assert front[..j] == acc[..j];
    }
  }

  /** The loss of `RegressionLosesEvent` in these terms. */
  lemma LateLoss(lib: Lib, rt: State, front: seq<Step>, late: Step)
    requires LibOk(lib) && Started(rt) && NoPolls(front) && late.Submit?
    requires var s := Run(lib, Initial(rt), front);
             && NoRegression(s.accepted) && s.accepted != [] && s.accepted[0].callbackSeq == 1
             && late.e !in s.accepted && Next(lib, s, late).accepted == s.accepted + [late.e]
             && late.e.callbackSeq <= MaxOf(CallbackNumbers(s.accepted))
    ensures Producers(WithPolls(front, EasyPoll()) + [late]) == front + [late]
    ensures SilentLoss(Run(lib, Initial(rt), WithPolls(front, EasyPoll()) + [late]), late.e)
  {
    hide LibOk, Started, Next, Run, NoRegression, Suits, MaxOf, CallbackNumbers, PageAfter, WithPolls, Producers;
    var polled := WithPolls(front, EasyPoll());
    JustAppended(lib, Run(lib, Initial(rt), front), late);
    HistorySuits(lib, rt, front);
    RegressionLosesEvent(lib, rt, front, late.e, late.now, EasyPoll(), []);
    RunConcat(lib, Initial(rt), polled, [late]);
    RunOne(lib, Run(lib, Initial(rt), polled), late);
    RunNone(lib, Run(lib, Initial(rt), polled + [late]));
    ProducersPolled(front, EasyPoll());
    ProducersConcat(polled, [late]);
    ProducersPair(late, EasyPoll());
  }

  /** A schedule for a history from number 1 on: poll after every step until the first late event. */
  lemma LossAtRegression(lib: Lib, rt: State, steps: seq<Step>) returns (n: nat, schedule: seq<Step>, e: Event)
    requires LibOk(lib) && Started(rt) && NoPolls(steps)
    requires var acc := Run(lib, Initial(rt), steps).accepted;
             Distinct(acc) && !NoRegression(acc) && acc != [] && acc[0].callbackSeq == 1
    ensures n <= |steps| && Producers(schedule) == steps[..n]
    ensures SilentLoss(Run(lib, Initial(rt), schedule), e)
  {
    hide LibOk, Started, Next, Run, NoRegression, SilentLoss, Distinct, MaxOf, CallbackNumbers, Producers, WithPolls;
    var acc := Run(lib, Initial(rt), steps).accepted;
    var j := FirstRegression(acc);
    var m := GrowsAt(lib, Initial(rt), steps, j);
    n, e := m + 1, acc[j];
    RunSnoc(lib, Initial(rt), steps[..n]);
    assert steps[..n][..m] == steps[..m] && steps[..n] == steps[..m] + [steps[m]];
    assert acc[..j + 1] == acc[..j] + [e];
    NewEvent(acc, j);
    LateLoss(lib, rt, steps[..m], steps[m]);
    schedule := WithPolls(steps[..m], EasyPoll()) + [steps[m]];
  }

  lemma JustAppended(lib: Lib, s: System, step: Step)
    requires step.Submit? && Next(lib, s, step).accepted == s.accepted + [step.e]
    ensures Built(lib, step.e) && Append(s.runtime, step.e, step.now).1 == Appended
  {
    hide Built, Append;
    assert |s.accepted + [step.e]| == |s.accepted| + 1;
  }

  lemma NewEvent(acc: seq<Event>, j: nat)
    requires Distinct(acc) && j < |acc|
    ensures acc[j] !in acc[..j]
  {
  }

  lemma HistorySuits(lib: Lib, rt: State, steps: seq<Step>)
    requires LibOk(lib) && Started(rt) && NoPolls(steps) && Run(lib, Initial(rt), steps).accepted != []
    ensures Suits(EasyPoll(), rt.config, Run(lib, Initial(rt), steps).accepted)
  {
    hide LibOk, Started, Next, Run, Suits, EasyPoll;
    StartedInv(lib, rt);
    RunInv(lib, Initial(rt), steps);
    Unpolled(lib, Initial(rt), steps);
    EasyPollSuits(lib, rt.config, Run(lib, Initial(rt), steps).accepted);
  }

  /** A schedule for a number 1 that comes to be the oldest later: no poll before that. */
  lemma LossAtSurfacing(lib: Lib, rt: State, steps: seq<Step>, k: nat) returns (n: nat)
    requires LibOk(lib) && Started(rt) && NoPolls(steps)
    requires var acc := Run(lib, Initial(rt), steps).accepted;
             Distinct(acc) && 0 < k < |acc| && SurfacedAt(acc, rt.config.maxEvents, k)
    ensures n <= |steps| && Producers(steps[..n]) == steps[..n]
    ensures SilentLoss(Run(lib, Initial(rt), steps[..n]), Run(lib, Initial(rt), steps).accepted[0])
  {
    hide LibOk, Started, Next, Run, SilentLoss, Distinct, Producers, Built;
    var acc := Run(lib, Initial(rt), steps).accepted;
    n := LengthReached(lib, Initial(rt), steps, k + rt.config.maxEvents);
    StartedInv(lib, rt);
    RunInv(lib, Initial(rt), steps[..n]);
    Unpolled(lib, Initial(rt), steps[..n]);
    ProducersOnly(steps[..n]);
    FirstGone(Run(lib, Initial(rt), steps[..n]), acc, k);
  }

  /** A dormant client misses what was evicted before the number 1 that is now the oldest. */
  lemma FirstGone(s: System, acc: seq<Event>, k: nat)
    requires Holds(s.runtime, s.accepted) && Dormant(s) && Distinct(acc)
    requires 0 < k && k + s.runtime.config.maxEvents <= |acc| && acc[k].callbackSeq == 1
    requires s.accepted == acc[..k + s.runtime.config.maxEvents]
    ensures SilentLoss(s, acc[0])
  {
    var b := s.runtime.buffer;
    assert b.droppedBufferCount == k && b.events[0] == acc[k];
    assert s.accepted[0] == acc[0];
    forall i | 0 <= i < |b.events| ensures b.events[i] != acc[0] {
      assert b.events[i] == acc[k + i];
    }
  }

  // ---------------------------------------------------------------------- the condition

  /** Some way to place polls between a part of these steps loses an event without a word. */
  ghost predicate LossPossible(lib: Lib, rt: State, steps: seq<Step>) {
    exists n: nat, schedule, e | n <= |steps| && Producers(schedule) == steps[..n] ::
      SilentLoss(Run(lib, Initial(rt), schedule), e)
  }

  lemma FirstSurfaced(acc: seq<Event>, maxEvents: nat) returns (k: nat)
    requires Surfaced(acc, maxEvents)
    ensures k < |acc| && SurfacedAt(acc, maxEvents, k)
  {
    k :| 0 <= k < |acc| && SurfacedAt(acc, maxEvents, k);
  }

  lemma RegressionStays(acc: seq<Event>, all: seq<Event>)
    requires acc <= all && NoRegression(all)
    ensures NoRegression(acc)
  {
    hide NoRegression, Ordered;
    NoRegressionOrdered(acc);
    NoRegressionOrdered(all);
    OrderedPrefix(acc, all);
  }

  lemma OrderedPrefix(acc: seq<Event>, all: seq<Event>)
    requires acc <= all && Ordered(all)
    ensures Ordered(acc)
  {
    assert forall i | 0 <= i < |acc| :: acc[i] == all[i];
  }

  lemma LossNeedsSteps(lib: Lib, rt: State, steps: seq<Step>, n: nat, schedule: seq<Step>, e: Event)
    requires LibOk(lib) && Started(rt) && NoPolls(steps) && n <= |steps| && Producers(schedule) == steps[..n]
    requires SilentLoss(Run(lib, Initial(rt), schedule), e)
    ensures var acc := Run(lib, Initial(rt), steps).accepted;
            !NoRegression(acc) && Surfaced(acc, rt.config.maxEvents)
  {
    hide LibOk, Started, Next, Run, SilentLoss, Producers, NoRegression, Surfaced;
    var s := Run(lib, Initial(rt), schedule);
    var acc := Run(lib, Initial(rt), steps).accepted;
    assert Reachable(lib, s);
    LossNeeds(lib, s, e);
    PollsApart(lib, Initial(rt), Initial(rt), schedule);
    PrefixHistory(lib, Initial(rt), steps, n);
    Unpolled(lib, Initial(rt), steps[..n]);
    SurfacedMore(s.accepted, acc, rt.config.maxEvents);
    if NoRegression(acc) {
      RegressionStays(s.accepted, acc);
    }
  }

  /** The exact condition, for any producers that have no event accepted twice: a silent loss is
    possible if and only if a regression was accepted and a number 1 came to be the oldest event
    in the buffer. (That it is necessary needs no condition: `LossNeeds`.) */
  lemma LossExact(lib: Lib, rt: State, steps: seq<Step>)
    requires LibOk(lib) && Started(rt) && NoPolls(steps)
    requires Distinct(Run(lib, Initial(rt), steps).accepted)
    ensures var acc := Run(lib, Initial(rt), steps).accepted;
            LossPossible(lib, rt, steps) <==> !NoRegression(acc) && Surfaced(acc, rt.config.maxEvents)
  {
    hide LibOk, Started, Next, Run, SilentLoss, Producers, NoRegression, Surfaced, Distinct;
    var acc := Run(lib, Initial(rt), steps).accepted;
    if LossPossible(lib, rt, steps) {
      var n: nat, schedule, e :| n <= |steps| && Producers(schedule) == steps[..n]
                                 && SilentLoss(Run(lib, Initial(rt), schedule), e);
      LossNeedsSteps(lib, rt, steps, n, schedule, e);
    }
    if !NoRegression(acc) && Surfaced(acc, rt.config.maxEvents) {
      var k := FirstSurfaced(acc, rt.config.maxEvents);
      if k == 0 {
        var n, schedule, e := LossAtRegression(lib, rt, steps);
      } else {
        var n := LossAtSurfacing(lib, rt, steps, k);
      }
    }
  }

  /** Proper producers have no event accepted twice. */
  lemma ProperDistinct(lib: Lib, rt: State, steps: seq<Step>)
    requires Started(rt) && AllProper(lib, Initial(rt), steps)
    ensures Distinct(Run(lib, Initial(rt), steps).accepted)
  {
    hide Started, Run, AllProper;
    NumbersOnce(lib, rt, steps);
  }

  /** Further events in rising order above a history. */
  ghost predicate Above(acc: seq<Event>, more: seq<Event>) {
    Ordered(more) && forall i, j | 0 <= i < |acc| && 0 <= j < |more| :: acc[i].callbackSeq < more[j].callbackSeq
  }

  lemma AboveOrdered(acc: seq<Event>, more: seq<Event>)
    requires Above(acc, more)
    ensures NoRegression(acc + more) <==> NoRegression(acc)
  {
    NoRegressionOrdered(acc);
    NoRegressionOrdered(acc + more);
    hide NoRegression;
    assert forall i | 0 <= i < |acc| :: (acc + more)[i] == acc[i];
  }

  lemma AboveFirst(acc: seq<Event>, more: seq<Event>)
    requires Above(acc, more) && acc != []
    ensures forall j | |acc| <= j < |acc + more| :: (acc + more)[j].callbackSeq > 1
  {
    forall j | |acc| <= j < |acc + more| ensures (acc + more)[j].callbackSeq > 1 {
      assert (acc + more)[j] == more[j - |acc|] && acc[0].callbackSeq < more[j - |acc|].callbackSeq;
    }
  }

  lemma AboveSurfaced(acc: seq<Event>, more: seq<Event>, maxEvents: nat)
    requires Above(acc, more) && acc != [] && |more| >= maxEvents
    ensures Surfaced(acc + more, maxEvents) <==> exists k | 0 <= k < |acc| :: acc[k].callbackSeq == 1
  {
    var all := acc + more;
    if Surfaced(all, maxEvents) {
      var k := FirstSurfaced(all, maxEvents);
      assert forall j | |acc| <= j < |all| :: all[j].callbackSeq > 1 by { AboveFirst(acc, more); }
      assert all[k] == acc[k];
    }
    if k :| 0 <= k < |acc| && acc[k].callbackSeq == 1 {
      assert SurfacedAt(all, maxEvents, k);
    }
  }

  /** When a bufferful of further events follows in rising order, the condition is on the history
    before: a regression was accepted, and number 1 was. */
  lemma LossBeforeRisingEvents(lib: Lib, rt: State, steps: seq<Step>, more: seq<Step>, extra: seq<Event>)
    requires LibOk(lib) && Started(rt) && NoPolls(steps + more)
    requires var acc := Run(lib, Initial(rt), steps).accepted;
             && Run(lib, Initial(rt), steps + more).accepted == acc + extra && Distinct(acc + extra)
             && Above(acc, extra) && |extra| >= rt.config.maxEvents
    ensures var acc := Run(lib, Initial(rt), steps).accepted;
            LossPossible(lib, rt, steps + more)
            <==> !NoRegression(acc) && exists k | 0 <= k < |acc| :: acc[k].callbackSeq == 1
  {
    hide LibOk, Started, Next, Run, LossPossible, NoRegression, Surfaced, Distinct, Above;
    var acc := Run(lib, Initial(rt), steps).accepted;
    LossExact(lib, rt, steps + more);
    AboveOrdered(acc, extra);
    if acc == [] {
      EmptyOrdered();
    } else {
      AboveSurfaced(acc, extra, rt.config.maxEvents);
    }
  }

  lemma EmptyOrdered()
    ensures NoRegression([])
  {
  }

  // ------------------------------------------------------------------- a late number 1

  /** A page that is not lost, fits, and rises is accepted as it is, in whatever order the
    history is. */
  lemma RisingPageAccepted(lib: Lib, s: System, poll: Step)
    requires LibOk(lib) && SystemInv(lib, s) && poll.Poll?
    requires var p := PageAfter(s.runtime, s.cursor, poll.limit);
             !p.cursorLost && RisesFrom(s.cursor, p.events) && Suits(poll, s.runtime.config, p.events)
    ensures Next(lib, s, poll) == Advanced(s, PageAfter(s.runtime, s.cursor, poll.limit))
  {
    hide LibOk, PageAfter, Built, Kept, CaughtUp, Ordered, DecodeAll, EventFits, TimesOk, IdentifierText, RisesFrom,
      Next, Advanced, WireEvents, FeedModeOk, SymbolText;
    var p := PageAfter(s.runtime, s.cursor, poll.limit);
    PageBuilt(lib, s.runtime, s.accepted, s.cursor, poll.limit);
    DecodeHonest(lib, p.events, poll.now);
    PageHead(s.runtime, s.cursor, poll.limit);
    PageEnd(s.runtime, s.cursor, poll.limit);
    HonestPageOk(lib, p, s.cursor, poll.limit, poll.x);
    AcceptedPoll(lib, s, poll);
  }

  lemma PageEnd(rt: State, c: nat, limit: nat)
    requires limit >= 1
    ensures var p := PageAfter(rt, c, limit);
            && p.nextCursor == (if p.events == [] then c else p.events[|p.events| - 1].callbackSeq)
            && (p.events == [] ==> !p.hasMore)
  {
  }

  /** A number 1 that came late and is now the oldest in the buffer hides what was evicted before
    it: a client that polls for the first time is not told, its page of one event starts
    with number 1, and no continuation delivers an event that is no longer buffered. */
  lemma LateFirstLosesEvents(lib: Lib, rt: State, steps: seq<Step>, poll: Step, rest: seq<Step>, e: Event)
    requires LibOk(lib) && Started(rt) && NoPolls(steps)
    requires var s := Run(lib, Initial(rt), steps);
             && s.runtime.buffer.droppedBufferCount > 0 && s.runtime.buffer.events != []
             && s.runtime.buffer.events[0].callbackSeq == 1
             && e in s.accepted && e !in s.runtime.buffer.events && NeverSent(rest, e)
             && poll.Poll? && poll.limit == 1 && Suits(poll, rt.config, [s.runtime.buffer.events[0]])
    ensures var s := Run(lib, Initial(rt), steps);
            var u := Next(lib, s, poll);
            && ReallyLost(s.accepted, s.runtime.buffer.droppedBufferCount, 0)
            && !PageAfter(s.runtime, 0, 1).cursorLost
            && u.delivered == [s.runtime.buffer.events[0]] && u.cursor == 1
            && e !in Run(lib, u, rest).delivered
  {
    hide LibOk, Started, Next, Run, Built, Suits, Subscribed, CaughtUp, Ordered, PageAfter;
    var s := Run(lib, Initial(rt), steps);
    StartedInv(lib, rt);
    RunInv(lib, Initial(rt), steps);
    Unpolled(lib, Initial(rt), steps);
    FirstPageOfOne(s.runtime);
    RisingPageAccepted(lib, s, poll);
    StepInv(lib, s, poll);
    GoneForEver(lib, Next(lib, s, poll), rest, e);
    assert s.accepted[0].callbackSeq > 0;
  }

  lemma FirstPageOfOne(rt: State)
    requires rt.buffer.events != [] && rt.buffer.events[0].callbackSeq == 1
    ensures var p := PageAfter(rt, 0, 1);
            p.events == [rt.buffer.events[0]] && p.nextCursor == 1 && !p.cursorLost && RisesFrom(0, p.events)
  {
    var es := rt.buffer.events;
    assert After(es, 0)[0] == es[0];
  }
}
