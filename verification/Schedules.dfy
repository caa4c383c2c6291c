/** Runs of producers with polls placed between their steps: what the polls leave alone, and which
  steps made the history. */
module Schedules {
  import opened Prelude
  import opened Envelopes
  import opened SidecarState
  import opened RuntimeInvariants
  import opened SidecarClient
  import opened EventDelivery
  import opened DeliveryRuns
  import opened RacingProducers

  /** The producers' part of a run. */
  function Producers(steps: seq<Step>): seq<Step> {
    if steps == [] then [] else Producing(steps[0]) + Producers(steps[1..])
  }

  function Producing(step: Step): seq<Step> { if step.Poll? then [] else [step] }

  ghost predicate SameProducers(s: System, t: System) {
    s.runtime == t.runtime && s.accepted == t.accepted && s.pending == t.pending
  }

  lemma SameStep(lib: Lib, s: System, t: System, step: Step)
    requires SameProducers(s, t)
    ensures step.Poll? ==> SameProducers(Next(lib, s, step), t)
    ensures !step.Poll? ==> SameProducers(Next(lib, s, step), Next(lib, t, step))
  {
    hide Built, Accepts, ToWire, DecodeAll, Append, Do, PageAfter;
  }

  /** Wherever the polls are, the producers do the same. */
  lemma {:induction false} PollsApart(lib: Lib, s: System, t: System, steps: seq<Step>)
    requires SameProducers(s, t)
    ensures SameProducers(Run(lib, s, steps), Run(lib, t, Producers(steps)))
    decreases |steps|
  {
    hide Next;
    if steps != [] {
      SameStep(lib, s, t, steps[0]);
      if steps[0].Poll? {
        assert Producers(steps) == Producers(steps[1..]);
        PollsApart(lib, Next(lib, s, steps[0]), t, steps[1..]);
      } else {
        assert Producers(steps)[0] == steps[0] && Producers(steps)[1..] == Producers(steps[1..]);
        PollsApart(lib, Next(lib, s, steps[0]), Next(lib, t, steps[0]), steps[1..]);
      }
    }
  }

  lemma {:induction false} ProducersConcat(a: seq<Step>, b: seq<Step>)
    ensures Producers(a + b) == Producers(a) + Producers(b)
  {
    hide Producers, Producing;
    ProducersCons(a);
    ProducersCons(a + b);
    if a == [] {
      assert a + b == b;
      assert [] + Producers(b) == Producers(b);
    } else {
      ProducersConcat(a[1..], b);
      assert (a + b)[0] == a[0] && (a + b)[1..] == a[1..] + b;
      Regroup(Producing(a[0]), Producers(a[1..]), Producers(b));
    }
  }

  lemma ProducersCons(steps: seq<Step>)
    ensures Producers(steps) == if steps == [] then [] else Producing(steps[0]) + Producers(steps[1..])
  {
  }

  lemma Regroup(a: seq<Step>, b: seq<Step>, c: seq<Step>)
    ensures a + (b + c) == a + b + c
  {
  }

  lemma {:induction false} ProducersOnly(steps: seq<Step>)
    requires NoPolls(steps)
    ensures Producers(steps) == steps
  {
    if steps != [] {
      ProducersOnly(steps[1..]);
      assert steps == [steps[0]] + steps[1..];
    }
  }

  lemma ProducersPair(step: Step, poll: Step)
    requires !step.Poll? && poll.Poll?
    ensures Producers([step, poll]) == [step] && Producers([step]) == [step]
  {
    assert [step, poll][1..] == [poll] && [poll][1..] == [] && [step][1..] == [];
    assert Producers([poll]) == [];
  }

  lemma {:induction false} ProducersPolled(steps: seq<Step>, poll: Step)
    requires NoPolls(steps) && poll.Poll?
    ensures Producers(WithPolls(steps, poll)) == steps
  {
    hide Producers;
    ProducersCons(steps);
    if steps != [] {
      var n := |steps| - 1;
      ProducersPolled(steps[..n], poll);
      ProducersConcat(WithPolls(steps[..n], poll), [steps[n], poll]);
      ProducersPair(steps[n], poll);
      assert steps == steps[..n] + [steps[n]];
    }
  }

  /** Without polls the client stays where it started. */
  lemma {:induction false} Unpolled(lib: Lib, s: System, steps: seq<Step>)
    requires NoPolls(steps)
    ensures Run(lib, s, steps).cursor == s.cursor && Run(lib, s, steps).delivered == s.delivered
    ensures Run(lib, s, steps).runtime.config == s.runtime.config
    decreases |steps|
  {
    hide Next;
    if steps != [] {
      ClientApart(lib, s, steps[0], s.cursor, s.delivered);
      Unpolled(lib, Next(lib, s, steps[0]), steps[1..]);
    }
  }

  lemma {:induction false} HistoryGrows(lib: Lib, s: System, steps: seq<Step>)
    ensures s.accepted <= Run(lib, s, steps).accepted
    decreases |steps|
  {
    hide Next;
    if steps != [] {
      OneMoreAtMost(lib, s, steps[0]);
      HistoryGrows(lib, Next(lib, s, steps[0]), steps[1..]);
    }
  }

  lemma PrefixHistory(lib: Lib, s: System, steps: seq<Step>, n: nat)
    requires n <= |steps|
    ensures Run(lib, s, steps[..n]).accepted <= Run(lib, s, steps).accepted
  {
    hide Next, Run;
    RunConcat(lib, s, steps[..n], steps[n..]);
    assert steps[..n] + steps[n..] == steps;
    HistoryGrows(lib, Run(lib, s, steps[..n]), steps[n..]);
  }

  /** The step that added the event at position `m`. */
  lemma {:induction false} GrowsAt(lib: Lib, s: System, steps: seq<Step>, m: nat) returns (n: nat)
    requires |s.accepted| <= m < |Run(lib, s, steps).accepted|
    ensures n < |steps| && steps[n].Submit?
    ensures var all := Run(lib, s, steps).accepted;
            && Run(lib, s, steps[..n]).accepted == all[..m]
            && Run(lib, s, steps[..n + 1]).accepted == all[..m + 1] && steps[n].e == all[m]
    decreases |steps|
  {
    hide Next, Run;
    if steps == [] {
      RunNone(lib, s);
      assert false;
    } else {
      var last := |steps| - 1;
      var front := steps[..last];
      var before := Run(lib, s, front);
      RunSnoc(lib, s, steps);
      OneMoreAtMost(lib, before, steps[last]);
      if m < |before.accepted| {
        n := GrowsAt(lib, s, front, m);
        assert front[..n] == steps[..n] && front[..n + 1] == steps[..n + 1] && front[n] == steps[n];
        PrefixHistory(lib, s, steps, last);
      } else {
        n := last;
        assert steps[..n + 1] == steps;
        assert Run(lib, s, steps).accepted == before.accepted + [steps[n].e];
      }
    }
  }

  lemma RunNone(lib: Lib, s: System)
    ensures Run(lib, s, []) == s
  {
  }

  /** Every length of the history was reached. */
  lemma LengthReached(lib: Lib, s: System, steps: seq<Step>, m: nat) returns (n: nat)
    requires |s.accepted| <= m <= |Run(lib, s, steps).accepted|
    ensures n <= |steps| && Run(lib, s, steps[..n]).accepted == Run(lib, s, steps).accepted[..m]
  {
    hide Next, Run;
    if m == |Run(lib, s, steps).accepted| {
      n := |steps|;
      assert steps[..n] == steps;
    } else {
      n := GrowsAt(lib, s, steps, m);
    }
  }
}
