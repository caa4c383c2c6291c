/** Every run of any number of producers and one polling client over the sidecar's log. */
module DeliveryRuns {
  import opened Prelude
  import opened Envelopes
  import opened SidecarState
  import opened RuntimeInvariants
  import opened SidecarClient
  import opened EventDelivery

  /** The log with its history, the numbers its producers hold, and the client's view. */
  datatype System = System(
    runtime: State, accepted: seq<Event>, pending: set<nat>, cursor: nat, delivered: seq<Envelope>)

  /** A producer first takes a number, then submits an event under it or gives it up; a quote
    callback that fails after taking its number is an `Abandon`. Nothing keeps a producer from
    submitting any event that was built, under whatever number and as often as it likes. */
  datatype Step =
    | Allocate
    | Submit(e: Event, now: int)
    | Abandon(n: nat)
    | Housekeeping(c: Call)
    | Poll(limit: nat, x: Expectation, now: int)

  ghost function Next(lib: Lib, s: System, step: Step): System {
    match step
    case Allocate =>
      var (t, n) := NextCallbackSeq(s.runtime);
      s.(runtime := t, pending := s.pending + {n})
    case Submit(e, now) =>
      if Built(lib, e) then
        var (t, r) := Append(s.runtime, e, now);
        s.(runtime := t, pending := s.pending - {e.callbackSeq},
           accepted := if r == Appended then s.accepted + [e] else s.accepted)
      else s
    case Abandon(n) => s.(pending := s.pending - {n})
    case Housekeeping(c) =>
      if c.CallAppend? || c.CallNextCallback? then s else s.(runtime := Do(s.runtime, c))
    case Poll(limit, x, now) =>
      if limit < 1 || limit > 500 then s
      else
        var w := ToWire(lib, PageAfter(s.runtime, s.cursor, limit));
        if Accepts(lib, w, s.cursor, limit, x, now)
        then s.(cursor := w.nextCursor, delivered := s.delivered + DecodeAll(lib, w.events, now).value)
        else s
  }

  ghost function Run(lib: Lib, s: System, steps: seq<Step>): System
    decreases |steps|
  {
    if steps == [] then s else Run(lib, Next(lib, s, steps[0]), steps[1..])
  }

  /** The client after it accepted a page. */
  ghost function Advanced(s: System, p: Page): System {
    s.(cursor := p.nextCursor, delivered := s.delivered + p.events)
  }

  lemma AcceptedPoll(lib: Lib, s: System, poll: Step)
    requires poll.Poll? && 1 <= poll.limit <= 500
    requires var w := ToWire(lib, PageAfter(s.runtime, s.cursor, poll.limit));
             && Accepts(lib, w, s.cursor, poll.limit, poll.x, poll.now)
             && DecodeAll(lib, w.events, poll.now) == Some(PageAfter(s.runtime, s.cursor, poll.limit).events)
    ensures Next(lib, s, poll) == Advanced(s, PageAfter(s.runtime, s.cursor, poll.limit))
  {
    hide PageAfter, Accepts, DecodeAll, WireEvents, Append, Do;
  }

  // -------------------------------------------------------------------- invariants

  /** The regression branch of the accounting was never taken. */
  ghost predicate NoRegression(acc: seq<Event>) { Regressions(CallbackNumbers(acc)) == 0 }

  lemma {:induction false} NoRegressionOrdered(acc: seq<Event>)
    ensures NoRegression(acc) <==> Ordered(acc)
    ensures NoRegression(acc) && acc != [] ==> MaxOf(CallbackNumbers(acc)) == Last(acc)
  {
    if acc != [] {
      var n := |acc| - 1;
      var front, e := acc[..n], acc[n];
      NoRegressionOrdered(front);
      MaxPositive(front);
      SkippedStep(CallbackNumbers(front), e.callbackSeq);
      OrderedFront(acc);
    }
  }

  lemma OrderedFront(acc: seq<Event>)
    requires acc != []
    ensures var front := acc[..|acc| - 1];
            Ordered(acc) <==> Ordered(front) && (front != [] ==> Last(front) < Last(acc))
  {
    var n := |acc| - 1;
    assert forall i | 0 <= i < n :: acc[..n][i] == acc[i];
  }

  /** What every run keeps; that the client is caught up needs an ordered history. */
  ghost predicate SystemInv(lib: Lib, s: System) {
    && Holds(s.runtime, s.accepted)
    && Subscribed(s.runtime.config, s.accepted)
    && AllBuilt(lib, s.accepted)
    && (Ordered(s.accepted) ==> CaughtUp(s.accepted, s.cursor, s.delivered))
  }

  /** The client has what lies up to its cursor, and a cursor that moved started at number 1. */
  ghost predicate CaughtUp(acc: seq<Event>, cursor: nat, delivered: seq<Envelope>) {
    && delivered == UpTo(acc, cursor)
    && (cursor > 0 ==> acc != [] && acc[0].callbackSeq == 1 && cursor <= Last(acc))
  }

  ghost function Last(es: seq<Event>): nat
    requires es != []
  {
    es[|es| - 1].callbackSeq
  }

  lemma {:induction false} UpToSnoc(es: seq<Event>, e: Event, c: nat)
    requires c < e.callbackSeq
    ensures UpTo(es + [e], c) == UpTo(es, c)
  {
    if es == [] {
      assert [] + [e] == [e] && [e][1..] == [];
    } else {
      UpToSnoc(es[1..], e, c);
      assert (es + [e])[1..] == es[1..] + [e];
    }
  }

  lemma CaughtUpSnoc(acc: seq<Event>, e: Event, cursor: nat, delivered: seq<Envelope>)
    requires CaughtUp(acc, cursor, delivered) && Ordered(acc + [e])
    ensures CaughtUp(acc + [e], cursor, delivered)
  {
    var all := acc + [e];
    forall i | 0 <= i < |acc| ensures acc[i].callbackSeq < e.callbackSeq {
      assert all[i].callbackSeq < all[|acc|].callbackSeq;
    }
    UpToSnoc(acc, e, cursor);
  }

  lemma OrderedInit(acc: seq<Event>, e: Event)
    requires Ordered(acc + [e])
    ensures Ordered(acc)
  {
    OrderedFront(acc + [e]);
    assert (acc + [e])[..|acc|] == acc;
  }

  lemma AppendedInv(lib: Lib, s: System, e: Event, rt: State)
    requires SystemInv(lib, s) && Built(lib, e) && rt.config == s.runtime.config
    requires e.symbol in rt.config.symbols && e.sessionId == rt.config.sessionId
    requires Kept(rt.buffer, rt.config.maxEvents, s.accepted + [e])
    ensures SystemInv(lib, s.(runtime := rt, pending := s.pending - {e.callbackSeq}, accepted := s.accepted + [e]))
  {
    hide Kept, Built;
    if Ordered(s.accepted + [e]) {
      OrderedInit(s.accepted, e);
      CaughtUpSnoc(s.accepted, e, s.cursor, s.delivered);
    }
  }

  lemma RuntimeMoved(lib: Lib, s: System, rt: State, pending: set<nat>)
    requires SystemInv(lib, s) && rt.buffer == s.runtime.buffer && rt.config == s.runtime.config
    ensures SystemInv(lib, s.(runtime := rt, pending := pending))
  {
    hide Built, CaughtUp, Ordered;
  }

  lemma AppendParts(rt: State, e: Event, now: int)
    ensures var (t, r) := Append(rt, e, now);
            && t.allocator == rt.allocator && t.config == rt.config
            && t.buffer == (if r == Appended then Store(rt.buffer, rt.config.maxEvents, e) else rt.buffer)
            && (r == Appended ==> e.eventId !in rt.buffer.eventIds && e.symbol in rt.config.symbols
                                  && e.sessionId == rt.config.sessionId)
  {
  }

  lemma SubmitParts(lib: Lib, s: System, e: Event, now: int)
    requires Built(lib, e)
    ensures var (rt, r) := Append(s.runtime, e, now);
            Next(lib, s, Submit(e, now))
            == s.(runtime := rt, pending := s.pending - {e.callbackSeq},
                  accepted := if r == Appended then s.accepted + [e] else s.accepted)
  {
    hide Append, Built;
  }

  lemma SubmitInv(lib: Lib, s: System, e: Event, now: int)
    requires SystemInv(lib, s)
    ensures SystemInv(lib, Next(lib, s, Submit(e, now)))
  {
    hide Next, Append, Built, CaughtUp, Ordered, Kept, AllBuilt, Subscribed;
    if Built(lib, e) {
      var (rt, r) := Append(s.runtime, e, now);
      SubmitParts(lib, s, e, now);
      AppendParts(s.runtime, e, now);
      if r == Appended {
        NewInBuffer(s, e, now);
        AppendedInv(lib, s, e, rt);
      } else {
        RuntimeMoved(lib, s, rt, s.pending - {e.callbackSeq});
      }
    } else {
      NotBuilt(lib, s, e, now);
    }
  }

  lemma NewInBuffer(s: System, e: Event, now: int)
    requires Holds(s.runtime, s.accepted) && Append(s.runtime, e, now).1 == Appended
    ensures var rt := Append(s.runtime, e, now).0; Kept(rt.buffer, rt.config.maxEvents, s.accepted + [e])
  {
    hide Append, Kept;
    AppendParts(s.runtime, e, now);
    StoreKeeps(s.runtime.buffer, s.runtime.config.maxEvents, e, s.accepted);
  }

  lemma NotBuilt(lib: Lib, s: System, e: Event, now: int)
    requires !Built(lib, e)
    ensures Next(lib, s, Submit(e, now)) == s
  {
    hide Built, Append;
  }

  /** An accepted page is the page itself, and takes the client from one cursor to the next. */
  lemma PollAdvances(lib: Lib, rt: State, acc: seq<Event>, cursor: nat, delivered: seq<Envelope>,
                     limit: nat, x: Expectation, now: int)
    requires LibOk(lib) && Holds(rt, acc) && Ordered(acc) && AllBuilt(lib, acc)
    requires CaughtUp(acc, cursor, delivered) && limit >= 1
    requires Accepts(lib, ToWire(lib, PageAfter(rt, cursor, limit)), cursor, limit, x, now)
    ensures var p := PageAfter(rt, cursor, limit);
            CaughtUp(acc, p.nextCursor, delivered + DecodeAll(lib, ToWire(lib, p).events, now).value)
  {
    PageDecodes(lib, rt, acc, cursor, limit, now);
    CursorAdvances(rt, acc, cursor, delivered, limit);
  }

  lemma CursorAdvances(rt: State, acc: seq<Event>, cursor: nat, delivered: seq<Envelope>, limit: nat)
    requires Holds(rt, acc) && Ordered(acc) && CaughtUp(acc, cursor, delivered) && limit >= 1
    requires !PageAfter(rt, cursor, limit).cursorLost
    ensures var p := PageAfter(rt, cursor, limit);
            CaughtUp(acc, p.nextCursor, delivered + p.events)
  {
    var k, m := PageContinues(rt, acc, cursor, limit);
    if k < m {
      SliceAdvances(acc, cursor, delivered, k, m);
      if cursor == 0 { FirstPage(rt, acc, limit); }
    } else {
      assert delivered + [] == delivered;
    }
  }

  lemma SliceAdvances(acc: seq<Event>, cursor: nat, delivered: seq<Envelope>, k: nat, m: nat)
    requires CaughtUp(acc, cursor, delivered) && Ordered(acc) && k < m <= |acc|
    requires UpTo(acc, cursor) == acc[..k]
    ensures delivered + acc[k..m] == UpTo(acc, acc[m - 1].callbackSeq)
    ensures acc[m - 1].callbackSeq <= Last(acc)
  {
    SplitBelow(acc, 0, m);
    assert acc[..k] + acc[k..m] == acc[..m];
  }

  lemma CursorMoved(lib: Lib, s: System, cursor: nat, delivered: seq<Envelope>)
    requires SystemInv(lib, s) && (Ordered(s.accepted) ==> CaughtUp(s.accepted, cursor, delivered))
    ensures SystemInv(lib, s.(cursor := cursor, delivered := delivered))
  {
  }

  lemma PollInv(lib: Lib, s: System, limit: nat, x: Expectation, now: int)
    requires LibOk(lib) && SystemInv(lib, s)
    ensures SystemInv(lib, Next(lib, s, Poll(limit, x, now)))
  {
    hide Built, Kept, CaughtUp, Subscribed;
    if 1 <= limit <= 500 {
      var w := ToWire(lib, PageAfter(s.runtime, s.cursor, limit));
      if Accepts(lib, w, s.cursor, limit, x, now) {
        if Ordered(s.accepted) {
          PollAdvances(lib, s.runtime, s.accepted, s.cursor, s.delivered, limit, x, now);
        }
        CursorMoved(lib, s, w.nextCursor, s.delivered + DecodeAll(lib, w.events, now).value);
      }
    }
  }

  /** The first page a client reads starts with number 1. */
  lemma FirstPage(rt: State, acc: seq<Event>, limit: nat)
    requires Holds(rt, acc) && Ordered(acc) && rt.buffer.events != []
    requires !PageAfter(rt, 0, limit).cursorLost
    ensures acc[0].callbackSeq == 1
  {
    var d := rt.buffer.droppedBufferCount;
    assert rt.buffer.events[0] == acc[d];
    assert forall j | 0 < j < |acc| :: acc[0].callbackSeq < acc[j].callbackSeq;
  }

  lemma HousekeepingInv(lib: Lib, s: System, c: Call)
    requires SystemInv(lib, s)
    ensures SystemInv(lib, Next(lib, s, Housekeeping(c)))
  {
    hide SystemInv;
    if !c.CallAppend? && !c.CallNextCallback? {
      RuntimeMoved(lib, s, Do(s.runtime, c), s.pending);
    }
  }

  lemma AllocateInv(lib: Lib, s: System)
    requires SystemInv(lib, s)
    ensures SystemInv(lib, Next(lib, s, Allocate))
  {
    var (t, n) := NextCallbackSeq(s.runtime);
    RuntimeMoved(lib, s, t, s.pending + {n});
  }

  lemma StepInv(lib: Lib, s: System, step: Step)
    requires LibOk(lib) && SystemInv(lib, s)
    ensures SystemInv(lib, Next(lib, s, step))
  {
    match step
    case Allocate => AllocateInv(lib, s);
    case Submit(e, now) => SubmitInv(lib, s, e, now);
    case Abandon(n) => RuntimeMoved(lib, s, s.runtime, s.pending - {n});
    case Housekeeping(c) => HousekeepingInv(lib, s, c);
    case Poll(limit, x, now) => PollInv(lib, s, limit, x, now);
  }

  lemma {:induction false} RunInv(lib: Lib, s: System, steps: seq<Step>)
    requires LibOk(lib) && SystemInv(lib, s)
    ensures SystemInv(lib, Run(lib, s, steps))
    decreases |steps|
  {
    if steps != [] {
      StepInv(lib, s, steps[0]);
      RunInv(lib, Next(lib, s, steps[0]), steps[1..]);
    }
  }

  function Initial(rt: State): System { System(rt, [], {}, 0, []) }

  /** A runtime just constructed. */
  ghost predicate Started(rt: State) {
    exists symbols, backend, maxEvents, sessionId :: Start(symbols, backend, maxEvents, sessionId) == Ok(rt)
  }

  ghost predicate Reachable(lib: Lib, s: System) {
    exists rt, steps :: Started(rt) && s == Run(lib, Initial(rt), steps)
  }

  lemma StartedInv(lib: Lib, rt: State)
    requires Started(rt)
    ensures SystemInv(lib, Initial(rt)) && rt.config.maxEvents >= MIN_EVENTS && rt.buffer == Buffer([], {}, 0)
  {
  }

  lemma ReachableInv(lib: Lib, s: System)
    requires LibOk(lib) && Reachable(lib, s)
    ensures SystemInv(lib, s)
  {
    hide Started, SystemInv;
    var rt, steps :| Started(rt) && s == Run(lib, Initial(rt), steps);
    StartedInv(lib, rt);
    RunInv(lib, Initial(rt), steps);
  }

  /** Exactly-once ordered delivery, for any number of producers: while no append took the
    regression branch, the client has received precisely the accepted events up to its cursor,
    in the order of acceptance, whatever was evicted in between. */
  lemma DeliveryExact(lib: Lib, s: System)
    requires LibOk(lib) && Reachable(lib, s) && NoRegression(s.accepted)
    ensures s.delivered == UpTo(s.accepted, s.cursor)
    ensures s.delivered <= s.accepted
    ensures forall i, j | 0 <= i < j < |s.delivered| :: s.delivered[i].callbackSeq < s.delivered[j].callbackSeq
  {
    hide Built, Reachable, LibOk, NoRegression;
    ReachableInv(lib, s);
    NoRegressionOrdered(s.accepted);
    var k := Cut(s.accepted, s.cursor);
    SplitAt(s.accepted, 0, k, s.cursor);
  }

  /** No silent loss: a page without `cursor_lost` leaves no evicted event unread, and once it is
    accepted nothing between the old and the new cursor is missing. */
  lemma NoSilentLoss(lib: Lib, s: System, limit: nat)
    requires LibOk(lib) && Reachable(lib, s) && NoRegression(s.accepted) && 1 <= limit <= 500
    ensures var p := PageAfter(s.runtime, s.cursor, limit);
            && (ReallyLost(s.accepted, s.runtime.buffer.droppedBufferCount, s.cursor) ==> p.cursorLost)
            && (!p.cursorLost ==> s.delivered + p.events == UpTo(s.accepted, p.nextCursor))
  {
    ReachableInv(lib, s);
    NoRegressionOrdered(s.accepted);
    LossReported(s.runtime, s.accepted, s.cursor, s.delivered, limit);
  }

  lemma LossReported(rt: State, acc: seq<Event>, cursor: nat, delivered: seq<Envelope>, limit: nat)
    requires Holds(rt, acc) && Ordered(acc) && CaughtUp(acc, cursor, delivered) && limit >= 1
    ensures var p := PageAfter(rt, cursor, limit);
            && (ReallyLost(acc, rt.buffer.droppedBufferCount, cursor) ==> p.cursorLost)
            && (!p.cursorLost ==> delivered + p.events == UpTo(acc, p.nextCursor))
  {
    CursorLostExact(rt, acc, cursor, limit);
    if !PageAfter(rt, cursor, limit).cursorLost {
      var k, m := PageContinues(rt, acc, cursor, limit);
      if k < m {
        SliceAdvances(acc, cursor, delivered, k, m);
      } else {
        assert delivered + [] == delivered;
      }
    }
  }

  /** The flag is exact while no number below the largest accepted one is missing. */
  lemma FlagExactWhenNothingWasted(lib: Lib, s: System, limit: nat)
    requires LibOk(lib) && Reachable(lib, s) && NoRegression(s.accepted)
    requires MaxOf(CallbackNumbers(s.accepted)) <= |s.accepted|
    ensures PageAfter(s.runtime, s.cursor, limit).cursorLost
            <==> ReallyLost(s.accepted, s.runtime.buffer.droppedBufferCount, s.cursor)
  {
    hide Built, Reachable, PageAfter, ReallyLost, CaughtUp;
    ReachableInv(lib, s);
    NoRegressionOrdered(s.accepted);
    FlagContiguous(s.runtime, s.accepted, s.cursor, limit);
  }

  lemma FlagContiguous(rt: State, acc: seq<Event>, cursor: nat, limit: nat)
    requires Holds(rt, acc) && Ordered(acc) && (acc != [] ==> Last(acc) <= |acc|)
    ensures PageAfter(rt, cursor, limit).cursorLost <==> ReallyLost(acc, rt.buffer.droppedBufferCount, cursor)
  {
    hide PageAfter, ReallyLost, Kept;
    NothingWasted(acc);
    CursorLostContiguous(rt, acc, cursor, limit);
  }

  /** A wasted first number is never forgiven: a client that starts at cursor 0 is told its
    cursor is lost although nothing may have been evicted, and receives nothing, ever. */
  lemma FirstNumberWasted(lib: Lib, s: System, limit: nat)
    requires LibOk(lib) && Reachable(lib, s) && NoRegression(s.accepted)
    requires s.accepted != [] && s.accepted[0].callbackSeq > 1
    ensures s.cursor == 0 && s.delivered == []
    ensures PageAfter(s.runtime, s.cursor, limit).cursorLost
  {
    ReachableInv(lib, s);
    NoRegressionOrdered(s.accepted);
    hide Built, Reachable;
    WasteReported(s.runtime, s.accepted, s.cursor, s.delivered, limit);
  }

  lemma WasteReported(rt: State, acc: seq<Event>, cursor: nat, delivered: seq<Envelope>, limit: nat)
    requires Holds(rt, acc) && Ordered(acc) && CaughtUp(acc, cursor, delivered)
    requires acc != [] && acc[0].callbackSeq > 1
    ensures cursor == 0 && delivered == [] && PageAfter(rt, cursor, limit).cursorLost
  {
    AllAfter(acc, 0);
    OldestAbove(rt, acc);
  }

  lemma OldestAbove(rt: State, acc: seq<Event>)
    requires Holds(rt, acc) && Ordered(acc) && acc != []
    ensures rt.buffer.events != [] && rt.buffer.events[0].callbackSeq >= acc[0].callbackSeq
  {
    var d := rt.buffer.droppedBufferCount;
    assert rt.buffer.events != [] && rt.buffer.events[0] == acc[d];
  }

  // ------------------------------------------------------------ producers with manners

  /** An event is submitted under a number its producer holds, or sent again while it is still
    in the buffer. */
  ghost predicate Proper(s: System, step: Step) {
    step.Submit? ==> step.e.callbackSeq in s.pending || step.e.eventId in s.runtime.buffer.eventIds
  }

  ghost predicate AllProper(lib: Lib, s: System, steps: seq<Step>)
    decreases |steps|
  {
    steps == [] || (Proper(s, steps[0]) && AllProper(lib, Next(lib, s, steps[0]), steps[1..]))
  }

  /** Every number belongs to at most one event or producer. */
  ghost predicate NumbersTaken(s: System) {
    var acc, top := s.accepted, s.runtime.allocator.callbackSeq;
    && (forall n | n in s.pending :: 1 <= n <= top)
    && (forall i | 0 <= i < |acc| :: acc[i].callbackSeq <= top && acc[i].callbackSeq !in s.pending)
    && (forall i, j | 0 <= i < j < |acc| :: acc[i].callbackSeq != acc[j].callbackSeq)
  }

  lemma TakenStep(lib: Lib, s: System, step: Step)
    requires NumbersTaken(s) && Proper(s, step)
    ensures NumbersTaken(Next(lib, s, step))
  {
    hide Built, Accepts, ToWire, DecodeAll;
    if step.Submit? {
      AppendParts(s.runtime, step.e, step.now);
      hide Append;
    }
  }

  lemma {:induction false} TakenRun(lib: Lib, s: System, steps: seq<Step>)
    requires NumbersTaken(s) && AllProper(lib, s, steps)
    ensures NumbersTaken(Run(lib, s, steps))
    decreases |steps|
  {
    if steps != [] {
      TakenStep(lib, s, steps[0]);
      TakenRun(lib, Next(lib, s, steps[0]), steps[1..]);
    }
  }

  /** Proper producers, racing or not, never have one number accepted twice. */
  lemma NumbersOnce(lib: Lib, rt: State, steps: seq<Step>)
    requires Started(rt) && AllProper(lib, Initial(rt), steps)
    ensures var acc := Run(lib, Initial(rt), steps).accepted;
            forall i, j | 0 <= i < j < |acc| :: acc[i].callbackSeq != acc[j].callbackSeq
  {
    TakenRun(lib, Initial(rt), steps);
  }

  // ------------------------------------------------------------------ one producer

  /** One proper producer: a number is taken only when none is held. */
  ghost predicate OneAtATime(lib: Lib, s: System, steps: seq<Step>)
    decreases |steps|
  {
    steps == [] || (&& (steps[0].Allocate? ==> s.pending == {}) && Proper(s, steps[0])
                    && OneAtATime(lib, Next(lib, s, steps[0]), steps[1..]))
  }

  /** A held number is the last one handed out, above the whole history. */
  ghost predicate Solo(s: System) {
    && Ordered(s.accepted)
    && (forall i | 0 <= i < |s.accepted| :: s.accepted[i].callbackSeq <= s.runtime.allocator.callbackSeq)
    && (forall n | n in s.pending ::
          n == s.runtime.allocator.callbackSeq && forall i | 0 <= i < |s.accepted| :: s.accepted[i].callbackSeq < n)
  }

  lemma SoloStep(lib: Lib, s: System, step: Step)
    requires Solo(s) && (step.Allocate? ==> s.pending == {}) && Proper(s, step)
    ensures Solo(Next(lib, s, step))
  {
    hide Built, Accepts, ToWire, DecodeAll;
    if step.Submit? {
      AppendParts(s.runtime, step.e, step.now);
    }
  }

  lemma {:induction false} SoloRun(lib: Lib, s: System, steps: seq<Step>)
    requires Solo(s) && OneAtATime(lib, s, steps)
    ensures Solo(Run(lib, s, steps))
    decreases |steps|
  {
    if steps != [] {
      SoloStep(lib, s, steps[0]);
      SoloRun(lib, Next(lib, s, steps[0]), steps[1..]);
    }
  }

  /** A single producer never takes the regression branch, so all of the above is his. */
  lemma SingleProducer(lib: Lib, rt: State, steps: seq<Step>)
    requires Started(rt) && OneAtATime(lib, Initial(rt), steps)
    ensures NoRegression(Run(lib, Initial(rt), steps).accepted)
  {
    StartedInv(lib, rt);
    SoloRun(lib, Initial(rt), steps);
    NoRegressionOrdered(Run(lib, Initial(rt), steps).accepted);
  }
}
