/** Runs that lose an event silently, from the library up: what the loss theorems assume is there. */
module SampleRuns {
  import opened Prelude
  import Numerals
  import CanonicalJson
  import opened Envelopes
  import opened SidecarState
  import opened RuntimeInvariants
  import opened SidecarClient
  import opened EventDelivery
  import opened DeliveryRuns
  import opened RacingProducers
  import opened SilentLosses
  import opened SampleLibrary

  // ------------------------------------------------------------ a series of submissions

  function Submits(es: seq<Event>, now: int): seq<Step> {
    if es == [] then [] else [Submit(es[0], now)] + Submits(es[1..], now)
  }

  ghost predicate AllAcceptable(lib: Lib, rt: State, es: seq<Event>, now: int) {
    forall i | 0 <= i < |es| :: Acceptable(lib, rt, es[i], now)
  }

  ghost predicate Held(s: System, es: seq<Event>) {
    && (forall i | 0 <= i < |es| :: es[i].callbackSeq in s.pending)
    && forall i, j | 0 <= i < j < |es| :: es[i].callbackSeq != es[j].callbackSeq
  }

  lemma NewId(b: Buffer, maxEvents: nat, acc: seq<Event>, e: Event)
    requires Kept(b, maxEvents, acc) && DistinctIds(acc + [e])
    ensures e.eventId !in b.eventIds
  {
    forall x | x in b.events ensures x.eventId != e.eventId {
      var i :| 0 <= i < |b.events| && b.events[i] == x;
      assert (acc + [e])[b.droppedBufferCount + i] == x && (acc + [e])[|acc|] == e;
    }
  }

  lemma SubmitOne(lib: Lib, s: System, e: Event, now: int)
    requires LibOk(lib) && SystemInv(lib, s) && Acceptable(lib, s.runtime, e, now) && DistinctIds(s.accepted + [e])
    ensures var t := Next(lib, s, Submit(e, now));
            && t.accepted == s.accepted + [e] && t.pending == s.pending - {e.callbackSeq}
            && t.runtime.config == s.runtime.config && t.runtime.link == s.runtime.link && SystemInv(lib, t)
  {
    hide LibOk, Built, Kept, CaughtUp, Ordered, Refusal, DistinctIds, CountCallback, CountProvider, Record, Store;
    NewId(s.runtime.buffer, s.runtime.config.maxEvents, s.accepted, e);
    StepInv(lib, s, Submit(e, now));
  }

  /** Acceptable events with different ids are all taken, whatever the order of their numbers. */
  lemma {:induction false} SubmitAll(lib: Lib, s: System, es: seq<Event>, now: int)
    requires LibOk(lib) && SystemInv(lib, s) && AllAcceptable(lib, s.runtime, es, now)
    requires DistinctIds(s.accepted + es) && Held(s, es)
    ensures var t := Run(lib, s, Submits(es, now));
            && t.accepted == s.accepted + es && SystemInv(lib, t) && t.runtime.config == s.runtime.config
            && AllProper(lib, s, Submits(es, now)) && NoPolls(Submits(es, now))
    decreases |es|
  {
    hide LibOk, SystemInv, Next, DistinctIds, Acceptable;
    if es == [] {
      assert s.accepted + [] == s.accepted;
    } else {
      var t := Next(lib, s, Submit(es[0], now));
      assert es == [es[0]] + es[1..];
      assert Submits(es, now)[0] == Submit(es[0], now) && Submits(es, now)[1..] == Submits(es[1..], now);
      assert s.accepted + es == s.accepted + [es[0]] + es[1..];
      DistinctFront(s.accepted + [es[0]], es[1..]);
      SubmitOne(lib, s, es[0], now);
      forall i | 0 <= i < |es[1..]| ensures Acceptable(lib, t.runtime, es[1..][i], now) {
        AcceptableLater(lib, s.runtime, t.runtime, es[i + 1], now);
      }
      SubmitAll(lib, t, es[1..], now);
    }
  }

  lemma DistinctFront(a: seq<Event>, b: seq<Event>)
    requires DistinctIds(a + b)
    ensures DistinctIds(a)
  {
    assert forall i | 0 <= i < |a| :: a[i] == (a + b)[i];
  }

  function Allocates(n: nat): seq<Step> { if n == 0 then [] else [Allocate] + Allocates(n - 1) }

  lemma {:induction false} AllocateAll(lib: Lib, s: System, n: nat)
    ensures var t := Run(lib, s, Allocates(n));
            && t.accepted == s.accepted && t.cursor == s.cursor && t.delivered == s.delivered
            && t.runtime.buffer == s.runtime.buffer && t.runtime.config == s.runtime.config
            && t.runtime.link == s.runtime.link
            && (forall k | k in s.pending
                           || s.runtime.allocator.callbackSeq < k <= s.runtime.allocator.callbackSeq + n ::
                  k in t.pending)
    ensures AllProper(lib, s, Allocates(n)) && NoPolls(Allocates(n))
    decreases n
  {
    if n > 0 {
      hide Next;
      AllocateOne(lib, s);
      assert Allocates(n)[0] == Allocate && Allocates(n)[1..] == Allocates(n - 1);
      AllocateAll(lib, Next(lib, s, Allocate), n - 1);
    }
  }

  lemma AllocateOne(lib: Lib, s: System)
    ensures var (rt, k) := NextCallbackSeq(s.runtime);
            Next(lib, s, Allocate) == s.(runtime := rt, pending := s.pending + {k})
  {
  }

  lemma {:induction false} ProperConcat(lib: Lib, s: System, a: seq<Step>, b: seq<Step>)
    requires AllProper(lib, s, a) && AllProper(lib, Run(lib, s, a), b)
    ensures AllProper(lib, s, a + b)
    decreases |a|
  {
    hide Next;
    if a == [] {
      assert a + b == b;
    } else {
      ProperConcat(lib, Next(lib, s, a[0]), a[1..], b);
      assert (a + b)[0] == a[0] && (a + b)[1..] == a[1..] + b;
    }
  }

  // ------------------------------------------------------------------ a race at start-up

  /** Numbers 2, 1, 3, 4, and so on. */
  ghost predicate FirstTwoSwapped(es: seq<Event>) {
    && |es| >= 2 && es[0].callbackSeq == 2 && es[1].callbackSeq == 1
    && forall i | 2 <= i < |es| :: es[i].callbackSeq == i + 1
  }

  function StartupRace(es: seq<Event>, now: int): seq<Step> { Allocates(|es|) + Submits(es, now) }

  lemma AllAcceptableLater(lib: Lib, rt: State, later: State, es: seq<Event>, now: int)
    requires AllAcceptable(lib, rt, es, now) && later.config == rt.config && later.link == rt.link
    ensures AllAcceptable(lib, later, es, now)
  {
    hide Acceptable;
    forall i | 0 <= i < |es| ensures Acceptable(lib, later, es[i], now) {
      AcceptableLater(lib, rt, later, es[i], now);
    }
  }

  lemma SwappedHeld(s: System, es: seq<Event>)
    requires FirstTwoSwapped(es) && forall k | 0 < k <= |es| :: k in s.pending
    ensures Held(s, es)
  {
  }

  lemma StartupRun(lib: Lib, rt: State, es: seq<Event>, now: int)
    requires LibOk(lib) && Started(rt) && FirstTwoSwapped(es) && DistinctIds(es) && AllAcceptable(lib, rt, es, now)
    ensures var s := Run(lib, Initial(rt), StartupRace(es, now));
            && s.accepted == es && SystemInv(lib, s) && s.runtime.config == rt.config
            && AllProper(lib, Initial(rt), StartupRace(es, now)) && NoPolls(StartupRace(es, now))
  {
    hide LibOk, SystemInv, Next, DistinctIds, AllAcceptable, Started, Run, AllProper, Allocates, Submits, Held,
      FirstTwoSwapped;
    var n := |es|;
    var s0, s := Initial(rt), Run(lib, Initial(rt), Allocates(n));
    StartedInv(lib, rt);
    StartedNumbers(rt);
    AllocateAll(lib, s0, n);
    RunInv(lib, s0, Allocates(n));
    AllAcceptableLater(lib, rt, s.runtime, es, now);
    SwappedHeld(s, es);
    assert [] + es == es;
    SubmitAll(lib, s, es, now);
    RunConcat(lib, s0, Allocates(n), Submits(es, now));
    ProperConcat(lib, s0, Allocates(n), Submits(es, now));
  }

  /** Two proper producers race for the first number and a bufferful of events follows: a client
    whose first poll comes then is told nothing, and never gets the event with number 2. */
  lemma StartupRaceLoses(lib: Lib, rt: State, es: seq<Event>, now: int, poll: Step, rest: seq<Step>)
    requires LibOk(lib) && Started(rt) && FirstTwoSwapped(es) && DistinctIds(es) && AllAcceptable(lib, rt, es, now)
    requires |es| == rt.config.maxEvents + 1
    requires poll.Poll? && poll.limit == 1 && Suits(poll, rt.config, [es[1]]) && NeverSent(rest, es[0])
    ensures var s := Run(lib, Initial(rt), StartupRace(es, now));
            var u := Next(lib, s, poll);
            && s.accepted == es && s.runtime.buffer.events == es[1..]
            && !PageAfter(s.runtime, 0, 1).cursorLost && u.delivered == [es[1]]
            && es[0] !in Run(lib, u, rest).delivered
  {
    hide LibOk, SystemInv, Next, DistinctIds, Started, Run, Suits, StartupRace, AllAcceptable, AllProper, PageAfter;
    StartupRun(lib, rt, es, now);
    BufferAfter(lib, Run(lib, Initial(rt), StartupRace(es, now)), es);
    LateFirstLosesEvents(lib, rt, StartupRace(es, now), poll, rest, es[0]);
  }

  lemma BufferAfter(lib: Lib, s: System, es: seq<Event>)
    requires SystemInv(lib, s) && s.accepted == es && |es| == s.runtime.config.maxEvents + 1 && FirstTwoSwapped(es)
    ensures s.runtime.buffer.droppedBufferCount == 1 && s.runtime.buffer.events == es[1..] && es[0] !in es[1..]
  {
    hide Built, CaughtUp, Ordered, Subscribed, Ids, DistinctIds;
    forall i | 0 <= i < |es[1..]| ensures es[1..][i] != es[0] {
      assert es[1..][i] == es[i + 1];
    }
  }

  // ---------------------------------------------------------------- nothing is assumed in vain

  const SESSION := "s1"
  const SYMBOL := "600000.SH"

  function SampleRuntime(): State
    ensures Started(SampleRuntime())
  {
    var r := Start([SYMBOL], "simulator", MIN_EVENTS, SESSION);
    assert Start([SYMBOL], "simulator", MIN_EVENTS, SESSION) == Ok(r.value);
    r.value
  }

  lemma SampleAcceptable(lib: Lib, e: Event, t: Instant)
    requires Built(lib, e) && e.receivedAt == t && e.sessionId == SESSION && e.symbol == SYMBOL
    requires e.feedMode == "SIMULATOR" && e.exchangeTimestamp == None && e.providerTimestamp == None
    ensures Acceptable(lib, SampleRuntime(), e, t)
  {
    hide Built;
  }

  /** Events with any different numbers that the sample runtime takes. */
  lemma SampleEvents(t: Instant, numbers: seq<int>) returns (lib: Lib, es: seq<Event>)
    requires |numbers| < Numerals.Ten(64)
    requires forall i | 0 <= i < |numbers| :: 1 <= numbers[i] <= CanonicalJson.MAX_INTEGER
    requires forall i, j | 0 <= i < j < |numbers| :: numbers[i] != numbers[j]
    ensures LibOk(lib) && |es| == |numbers| && forall i | 0 <= i < |es| :: es[i].callbackSeq == numbers[i]
    ensures AllAcceptable(lib, SampleRuntime(), es, t) && DistinctIds(es)
  {
    hide Numerals.Ten, LibOk, Acceptable, Built;
    var found: seq<Envelope>;
    lib, found := EnvelopesWith(t, SESSION, SYMBOL, numbers);
    es := seq(|found|, i requires 0 <= i < |found| => found[i]);
    forall i | 0 <= i < |es| ensures Acceptable(lib, SampleRuntime(), es[i], t) {
      SampleAcceptable(lib, es[i], t);
    }
  }

  lemma AcceptableSuits(lib: Lib, rt: State, es: seq<Event>, now: int)
    requires AllAcceptable(lib, rt, es, now) && es != []
    ensures Suits(EasyPoll(), rt.config, es)
  {
    hide Built, Suits;
    EasyPollSuits(lib, rt.config, es);
  }

  /** Three events as `RacingProducersLoseSilently` takes them. */
  lemma RaceHappens(t: Instant) returns (lib: Lib, es: seq<Event>)
    ensures LibOk(lib) && |es| == 3 && forall i | 0 <= i < 3 :: es[i].callbackSeq == i + 1
    ensures AllAcceptable(lib, SampleRuntime(), es, t) && DistinctIds(es)
    ensures Suits(EasyPoll(), SampleRuntime().config, [es[0], es[2]])
  {
    hide LibOk, Acceptable, Suits, SampleRuntime, DistinctIds, Numerals.Ten;
    SmallNumber(3);
    lib, es := SampleEvents(t, [1, 2, 3]);
    AcceptableSuits(lib, SampleRuntime(), [es[0], es[2]], t);
  }

  /** A bufferful of events as `StartupRaceLoses` takes them. */
  lemma StartupRaceHappens(t: Instant) returns (lib: Lib, es: seq<Event>)
    ensures LibOk(lib) && |es| == SampleRuntime().config.maxEvents + 1 && FirstTwoSwapped(es)
    ensures AllAcceptable(lib, SampleRuntime(), es, t) && DistinctIds(es)
    ensures Suits(EasyPoll(), SampleRuntime().config, [es[1]])
  {
    hide LibOk, Acceptable, Suits, DistinctIds, Numerals.Ten;
    SmallNumber(MIN_EVENTS + 1);
    var numbers := seq(MIN_EVENTS + 1, i => if i == 0 then 2 else if i == 1 then 1 else i + 1);
    lib, es := SampleEvents(t, numbers);
    AcceptableSuits(lib, SampleRuntime(), [es[1]], t);
  }

  lemma SmallNumber(n: nat)
    requires n < 1000
    ensures n < Numerals.Ten(64)
  {
    hide Numerals.Ten;
    ThreeDigits();
    Numerals.TenAdd(3, 61);
    assert Numerals.Ten(3) * Numerals.Ten(61) >= Numerals.Ten(3) * 1;
  }

  lemma ThreeDigits()
    ensures Numerals.Ten(3) == 1000
  {
  }
}
