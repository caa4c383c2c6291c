/** The token bucket of the market data providers (stock_tracker/collector/provider.py), over
  real numbers. */
module RateLimiter {
  import opened Prelude

  datatype Bucket = Bucket(rate: real, capacity: real, tokens: real, last: real, hits: nat)

  ghost predicate Valid(b: Bucket) { b.rate > 0.0 && b.capacity == MaxReal(1.0, b.rate) }

  /** `__init__` at clock reading `now`. */
  function Create(maxRps: real, now: real): (b: Bucket)
    ensures Valid(b) && b.tokens == b.capacity && b.last == now && b.hits == 0
  {
    var rate := MaxReal(0.1, maxRps);
    var capacity := MaxReal(1.0, rate);
    Bucket(rate, capacity, capacity, now, 0)
  }

  /** The tokens that flow in over `dt` seconds. */
  function Flow(dt: real, rate: real): real { dt * rate }

  function Refilled(b: Bucket, now: real): real {
    MinReal(b.capacity, b.tokens + Flow(now - b.last, b.rate))
  }

  /** `acquire` at clock reading `now`: the new bucket and the wait it imposes. */
  function Acquire(b: Bucket, now: real): (Bucket, real)
    requires b.rate > 0.0
  {
    var t := Refilled(b, now);
    if t >= 1.0 then (b.(tokens := t - 1.0, last := now), 0.0)
    else (b.(tokens := 0.0, last := now, hits := b.hits + 1), (1.0 - t) / b.rate)
  }

  /** One call in the source's own numbers: a token in hand or refilled meanwhile is taken without a
    wait, what a full bucket cannot hold is lost, and otherwise the wait refills exactly what is
    missing of one token. */
  lemma AcquireExact(b: Bucket, now: real)
    requires Valid(b)
    ensures var (c, wait) := Acquire(b, now);
            var x := b.tokens + (now - b.last) * b.rate;
            && c.rate == b.rate && c.capacity == b.capacity && c.last == now
            && (x >= 1.0 ==>
                  && wait == 0.0 && c.hits == b.hits
                  && c.tokens + 1.0 == (if x <= b.capacity then x else b.capacity))
            && (x < 1.0 ==> wait > 0.0 && x + wait * b.rate == 1.0 && c.tokens == 0.0 && c.hits == b.hits + 1)
  {
    var x := b.tokens + (now - b.last) * b.rate;
    if x < 1.0 {
      WaitPaysForOne(x, b.rate);
    }
  }

  class Limiter {
    const rate: real
    const capacity: real
    var tokens: real
    var last: real
    var hits: nat

    ghost function View(): Bucket
      reads this
    {
      Bucket(rate, capacity, tokens, last, hits)
    }

    constructor (maxRps: real, now: real)
      ensures View() == Create(maxRps, now)
    {
      rate := MaxReal(0.1, maxRps);
      capacity := MaxReal(1.0, MaxReal(0.1, maxRps));
      tokens := MaxReal(1.0, MaxReal(0.1, maxRps));
      last := now;
      hits := 0;
    }

    method AcquireToken(now: real) returns (wait: real)
      requires Valid(View())
      modifies `tokens, `last, `hits
      ensures Valid(View())
      ensures (View(), wait) == Acquire(old(View()), now)
    {
      tokens := MinReal(capacity, tokens + Flow(now - last, rate));
      last := now;
      if tokens >= 1.0 {
        tokens := tokens - 1.0;
        return 0.0;
      }
      wait := (1.0 - tokens) / rate;
      tokens := 0.0;
      hits := hits + 1;
    }
  }

  // -------------------------------------------------------------- sequential callers

  /** A bucket with the books of the calls made so far: `done` is when the last one returned,
    `waited` the sleep and `spilled` the refill that the capacity cut off. */
  datatype Log = Log(bucket: Bucket, done: real, granted: nat, waited: real, spilled: real)

  function Open(b: Bucket): Log { Log(b, b.last, 0, 0.0, 0.0) }

  function Call(l: Log, now: real): Log
    requires l.bucket.rate > 0.0
    ensures Call(l, now).bucket.rate == l.bucket.rate && Call(l, now).bucket.capacity == l.bucket.capacity
  {
    var b := l.bucket;
    var (c, wait) := Acquire(b, now);
    Log(c, now + wait, l.granted + 1, l.waited + wait,
        l.spilled + (b.tokens + Flow(now - b.last, b.rate) - Refilled(b, now)))
  }

  function Calls(l: Log, times: seq<real>): (r: Log)
    requires l.bucket.rate > 0.0
    ensures r.bucket.rate == l.bucket.rate && r.bucket.capacity == l.bucket.capacity
    decreases |times|
  {
    if times == [] then l else Calls(Call(l, times[0]), times[1..])
  }

  /** One caller at a time: each call starts after the one before it returned. */
  ghost predicate Sequential(l: Log, times: seq<real>)
    requires l.bucket.rate > 0.0
    decreases |times|
  {
    times == [] || (times[0] >= l.done && Sequential(Call(l, times[0]), times[1..]))
  }

  /** Tokens stay within the bucket; every token granted or left came from the initial fill, the
    elapsed refill, or the refill the sleeps were credited twice. */
  ghost predicate Balanced(l: Log, start: real, capacity: real, rate: real) {
    && l.bucket.rate == rate > 0.0 && l.bucket.capacity == capacity >= 1.0
    && 0.0 <= l.bucket.tokens <= capacity
    && start <= l.bucket.last <= l.done
    && 0.0 <= l.waited <= l.done - start
    && l.spilled >= 0.0
    && l.granted as real + l.bucket.tokens + l.spilled
       == capacity + Flow(l.bucket.last - start, rate) + Flow(l.waited, rate)
  }

  lemma Distribute(x: real, y: real, rate: real)
    ensures Flow(x + y, rate) == Flow(x, rate) + Flow(y, rate)
    ensures x >= 0.0 && rate > 0.0 ==> Flow(x, rate) >= 0.0
    ensures Flow(0.0, rate) == 0.0
  {
  }

  lemma WaitPaysForOne(t: real, rate: real)
    requires rate > 0.0 && t < 1.0
    ensures Flow((1.0 - t) / rate, rate) == 1.0 - t && (1.0 - t) / rate > 0.0
  {
  }

  lemma CallBalanced(l: Log, now: real, start: real, capacity: real, rate: real)
    requires Balanced(l, start, capacity, rate) && now >= l.done
    ensures Balanced(Call(l, now), start, capacity, rate)
  {
    var b := l.bucket;
    var t := Refilled(b, now);
    Distribute(b.last - start, now - b.last, rate);
    Distribute(now - b.last, 0.0, rate);
    if t < 1.0 {
      WaitPaysForOne(t, rate);
      Distribute(l.waited, (1.0 - t) / rate, rate);
    } else {
      Distribute(l.waited, 0.0, rate);
    }
    assert (b.last - start) + (now - b.last) == now - start;
  }

  /** A call loses exactly the refill above the capacity, and none at all below it. */
  lemma SpilledExact(l: Log, now: real)
    requires l.bucket.rate > 0.0
    ensures var x := l.bucket.tokens + (now - l.bucket.last) * l.bucket.rate;
            Call(l, now).spilled - l.spilled == if x > l.bucket.capacity then x - l.bucket.capacity else 0.0
  {
  }

  lemma {:induction false} CallsBalanced(l: Log, times: seq<real>, start: real, capacity: real, rate: real)
    requires Balanced(l, start, capacity, rate) && Sequential(l, times)
    ensures Balanced(Calls(l, times), start, capacity, rate)
    decreases |times|
  {
    if times != [] {
      CallBalanced(l, times[0], start, capacity, rate);
      CallsBalanced(Call(l, times[0]), times[1..], start, capacity, rate);
    }
  }

  lemma {:induction false} CallsGranted(l: Log, times: seq<real>)
    requires l.bucket.rate > 0.0
    ensures Calls(l, times).granted == l.granted + |times|
    decreases |times|
  {
    if times != [] { CallsGranted(Call(l, times[0]), times[1..]); }
  }

  /** Sequential calls completed within `T` of the start number at most capacity + 2 * rate * T,
    and the bucket never leaves [0, capacity]. */
  lemma GrantBound(maxRps: real, start: real, times: seq<real>)
    requires Sequential(Open(Create(maxRps, start)), times)
    ensures var l := Calls(Open(Create(maxRps, start)), times);
            var b := l.bucket;
            && 0.0 <= b.tokens <= b.capacity
            && |times| as real <= b.capacity + 2.0 * Flow(l.done - start, b.rate)
  {
    var b0 := Create(maxRps, start);
    var l := Calls(Open(b0), times);
    var rate := b0.rate;
    OpenBalanced(b0);
    CallsBalanced(Open(b0), times, start, b0.capacity, rate);
    CallsGranted(Open(b0), times);
    TwiceTheFlow(l.bucket.last - start, l.waited, l.done - start, rate);
  }

  lemma OpenBalanced(b: Bucket)
    requires Valid(b) && b.tokens == b.capacity
    ensures Balanced(Open(b), b.last, b.capacity, b.rate)
  {
    Distribute(0.0, 0.0, b.rate);
  }

  lemma TwiceTheFlow(x: real, y: real, T: real, rate: real)
    requires x <= T && y <= T && rate > 0.0
    ensures Flow(x, rate) + Flow(y, rate) <= 2.0 * Flow(T, rate)
  {
    Distribute(x, T - x, rate);
    Distribute(T - x, 0.0, rate);
    Distribute(y, T - y, rate);
    Distribute(T - y, 0.0, rate);
  }

  // ----------------------------------------------------------- windows inside a run

  /** What one run of calls adds to the books of a balanced log. */
  lemma WindowBooks(l: Log, times: seq<real>, start: real, capacity: real, rate: real)
    requires Balanced(l, start, capacity, rate) && Settled(l) && Sequential(l, times)
    ensures var m := Calls(l, times);
            && Balanced(m, start, capacity, rate) && m.granted == l.granted + |times|
            && m.spilled >= l.spilled && m.done >= l.done && m.bucket.last <= m.done
            && 0.0 <= m.waited - l.waited <= m.done - l.done
  {
    CallsBalanced(l, times, start, capacity, rate);
    CallsGranted(l, times);
    CallsGrow(l, times);
  }

  /** After a call the bucket is either in step with the clock, or empty and behind by a sleep
    that is worth at most one token. */
  ghost predicate Settled(l: Log) {
    || l.bucket.last == l.done
    || (l.bucket.tokens == 0.0 && l.bucket.last <= l.done && Flow(l.done - l.bucket.last, l.bucket.rate) <= 1.0)
  }

  lemma CallSettled(l: Log, now: real)
    requires l.bucket.rate > 0.0 && l.bucket.tokens >= 0.0 && l.bucket.capacity >= 1.0
    requires Settled(l) && now >= l.done
    ensures Settled(Call(l, now)) && Call(l, now).bucket.tokens >= 0.0
    ensures now <= Call(l, now).done && l.waited <= Call(l, now).waited
    ensures Call(l, now).waited - l.waited == Call(l, now).done - now
    ensures Call(l, now).spilled >= l.spilled
  {
    var b := l.bucket;
    var t := Refilled(b, now);
    Distribute(now - b.last, 0.0, b.rate);
    if t < 1.0 {
      WaitPaysForOne(t, b.rate);
    }
  }

  lemma {:induction false} CallsGrow(l: Log, times: seq<real>)
    requires l.bucket.rate > 0.0 && l.bucket.tokens >= 0.0 && l.bucket.capacity >= 1.0
    requires Settled(l) && Sequential(l, times)
    ensures var m := Calls(l, times);
            && m.spilled >= l.spilled && m.done >= l.done
            && 0.0 <= m.waited - l.waited <= m.done - l.done
            && Settled(m) && m.bucket.tokens >= 0.0
    decreases |times|
  {
    if times != [] {
      CallSettled(l, times[0]);
      CallsGrow(Call(l, times[0]), times[1..]);
    }
  }

  /** The bound for any window between two returns of a sequential run: the calls that complete
    after the one and by the other number at most capacity + 2 * rate * T. */
  lemma WindowBound(maxRps: real, start: real, before: seq<real>, window: seq<real>)
    requires var l := Open(Create(maxRps, start));
             Sequential(l, before) && Sequential(Calls(l, before), window)
    ensures var l := Calls(Open(Create(maxRps, start)), before);
            var m := Calls(l, window);
            |window| as real <= l.bucket.capacity + 2.0 * Flow(m.done - l.done, l.bucket.rate)
  {
    var b := Create(maxRps, start);
    var l := Calls(Open(b), before);
    OpenBalanced(b);
    WindowBooks(Open(b), before, start, b.capacity, b.rate);
    CallsGrow(Open(b), before);
    WindowBooks(l, window, start, b.capacity, b.rate);
    WindowFlow(l, Calls(l, window), start, b.capacity, b.rate);
    Distribute(0.0, 0.0, b.rate);
  }

  /** The bound for any window in time: from the completion of a call to that of a later one, both
    counted, it is max(2, capacity) + 2 * rate * T. */
  lemma ClosedWindowBound(maxRps: real, start: real, before: seq<real>, first: real, window: seq<real>)
    requires var l := Open(Create(maxRps, start));
             && Sequential(l, before) && first >= Calls(l, before).done
             && Sequential(Call(Calls(l, before), first), window)
    ensures var l := Call(Calls(Open(Create(maxRps, start)), before), first);
            var m := Calls(l, window);
            1.0 + |window| as real <= MaxReal(2.0, l.bucket.capacity) + 2.0 * Flow(m.done - l.done, l.bucket.rate)
  {
    var b := Create(maxRps, start);
    var l0 := Calls(Open(b), before);
    var l := Call(l0, first);
    OpenBalanced(b);
    WindowBooks(Open(b), before, start, b.capacity, b.rate);
    CallsGrow(Open(b), before);
    CallBalanced(l0, first, start, b.capacity, b.rate);
    CallSettled(l0, first);
    WindowBooks(l, window, start, b.capacity, b.rate);
    WindowFlow(l, Calls(l, window), start, b.capacity, b.rate);
    Distribute(0.0, 0.0, b.rate);
    assert l.bucket.tokens == 0.0 || (l.bucket.last == l.done && l.bucket.tokens <= b.capacity - 1.0);
  }

  /** From the two balances to the bound: tokens in hand, the rest of a sleep, and twice the flow. */
  lemma WindowFlow(l: Log, m: Log, start: real, capacity: real, rate: real)
    requires Balanced(l, start, capacity, rate) && Balanced(m, start, capacity, rate)
    requires m.spilled >= l.spilled && 0.0 <= m.waited - l.waited <= m.done - l.done
    ensures (m.granted - l.granted) as real
            <= l.bucket.tokens + Flow(l.done - l.bucket.last, rate) + 2.0 * Flow(m.done - l.done, rate)
  {
    var span := m.done - l.done;
    Distribute(l.bucket.last - start, m.bucket.last - l.bucket.last, rate);
    Distribute(l.waited, m.waited - l.waited, rate);
    Distribute(m.waited - l.waited, span - (m.waited - l.waited), rate);
    Distribute(span - (m.waited - l.waited), 0.0, rate);
    Distribute(m.bucket.last - l.bucket.last, m.done - m.bucket.last, rate);
    Distribute(m.done - m.bucket.last, 0.0, rate);
    Distribute(span, l.done - l.bucket.last, rate);
  }

  // -------------------------------------------------------------- the textbook bound

  /** capacity + rate * T at the return of the last call. */
  ghost predicate Textbook(l: Log, start: real) {
    l.granted as real <= l.bucket.capacity + Flow(l.done - start, l.bucket.rate)
  }

  /** What a caller can tell before a call: the sleeps it was told to take are paid by tokens in
    hand or by refill that a full bucket turned away, the current refill included. A call that
    has to wait has no token in hand. */
  predicate Affordable(l: Log, now: real) {
    var b := l.bucket;
    var t := Refilled(b, now);
    if t < 1.0 then Flow(l.waited, b.rate) <= l.spilled
    else Flow(l.waited, b.rate) <= l.spilled + (b.tokens + Flow(now - b.last, b.rate)) - 1.0
  }

  /** The guard decides: a call meets the textbook bound on return exactly when it was
    affordable. */
  lemma CallKeepsTextbook(l: Log, now: real, start: real, capacity: real, rate: real)
    requires Balanced(l, start, capacity, rate) && now >= l.done
    ensures Textbook(Call(l, now), start) <==> Affordable(l, now)
  {
    CallBalanced(l, now, start, capacity, rate);
    var b := l.bucket;
    var c := Call(l, now);
    var t := Refilled(b, now);
    Distribute(c.bucket.last - start, c.done - c.bucket.last, rate);
    assert (c.bucket.last - start) + (c.done - c.bucket.last) == c.done - start;
    if t < 1.0 {
      WaitPaysForOne(t, rate);
      Distribute(l.waited, (1.0 - t) / rate, rate);
    } else {
      Distribute(0.0, 0.0, rate);
    }
  }

  /** The bound holds at every return of a run. */
  ghost predicate TextbookThroughout(l: Log, times: seq<real>, start: real)
    requires l.bucket.rate > 0.0
    decreases |times|
  {
    times == [] || (Textbook(Call(l, times[0]), start) && TextbookThroughout(Call(l, times[0]), times[1..], start))
  }

  predicate AffordableThroughout(l: Log, times: seq<real>)
    requires l.bucket.rate > 0.0
    decreases |times|
  {
    times == [] || (Affordable(l, times[0]) && AffordableThroughout(Call(l, times[0]), times[1..]))
  }

  lemma {:induction false} ThroughoutExact(l: Log, times: seq<real>, start: real, capacity: real, rate: real)
    requires Balanced(l, start, capacity, rate) && Sequential(l, times)
    ensures TextbookThroughout(l, times, start) <==> AffordableThroughout(l, times)
    decreases |times|
  {
    if times != [] {
      CallKeepsTextbook(l, times[0], start, capacity, rate);
      CallBalanced(l, times[0], start, capacity, rate);
      ThroughoutExact(Call(l, times[0]), times[1..], start, capacity, rate);
    }
  }

  /** A sequential run meets the textbook bound at every return exactly when every call was
    affordable when it was made. */
  lemma TextbookBoundExact(maxRps: real, start: real, times: seq<real>)
    requires Sequential(Open(Create(maxRps, start)), times)
    ensures TextbookThroughout(Open(Create(maxRps, start)), times, start)
            <==> AffordableThroughout(Open(Create(maxRps, start)), times)
  {
    var b := Create(maxRps, start);
    OpenBalanced(b);
    ThroughoutExact(Open(b), times, start, b.capacity, b.rate);
  }

  /** `hits` tells whether any call has slept. */
  ghost predicate HitsTell(l: Log) { l.waited >= 0.0 && (l.bucket.hits == 0 <==> l.waited == 0.0) }

  lemma CallHits(l: Log, now: real)
    requires l.bucket.rate > 0.0 && HitsTell(l)
    ensures HitsTell(Call(l, now)) && Call(l, now).bucket.hits >= l.bucket.hits
    ensures Call(l, now).bucket.hits > l.bucket.hits <==> Refilled(l.bucket, now) < 1.0
  {
    var t := Refilled(l.bucket, now);
    if t < 1.0 {
      WaitPaysForOne(t, l.bucket.rate);
    }
  }

  lemma {:induction false} CallsHits(l: Log, times: seq<real>)
    requires l.bucket.rate > 0.0 && HitsTell(l)
    ensures HitsTell(Calls(l, times)) && Calls(l, times).bucket.hits >= l.bucket.hits
    decreases |times|
  {
    if times != [] {
      CallHits(l, times[0]);
      CallsHits(Call(l, times[0]), times[1..]);
    }
  }

  /** A run that never waited meets the textbook bound. */
  lemma TextbookWithoutWaiting(maxRps: real, start: real, times: seq<real>)
    requires Sequential(Open(Create(maxRps, start)), times)
    requires Calls(Open(Create(maxRps, start)), times).bucket.hits == 0
    ensures Textbook(Calls(Open(Create(maxRps, start)), times), start)
  {
    var b := Create(maxRps, start);
    var l := Calls(Open(b), times);
    OpenBalanced(b);
    CallsBalanced(Open(b), times, start, b.capacity, b.rate);
    CallsHits(Open(b), times);
    Distribute(l.bucket.last - start, l.done - l.bucket.last, b.rate);
    Distribute(l.done - l.bucket.last, 0.0, b.rate);
    assert (l.bucket.last - start) + (l.done - l.bucket.last) == l.done - start;
  }

  /** The guard of the wait branch: for a caller whose bucket never ran over, a call that has to
    wait meets the bound exactly when no call before it had to. */
  lemma FirstWaitOnly(maxRps: real, start: real, times: seq<real>, now: real)
    requires Sequential(Open(Create(maxRps, start)), times)
    requires var l := Calls(Open(Create(maxRps, start)), times);
             now >= l.done && l.spilled == 0.0 && Refilled(l.bucket, now) < 1.0
    ensures var l := Calls(Open(Create(maxRps, start)), times);
            Textbook(Call(l, now), start) <==> l.bucket.hits == 0
  {
    var b := Create(maxRps, start);
    var l := Calls(Open(b), times);
    OpenBalanced(b);
    CallsBalanced(Open(b), times, start, b.capacity, b.rate);
    CallsHits(Open(b), times);
    CallKeepsTextbook(l, now, start, b.capacity, b.rate);
    PositiveFlow(l.waited, b.rate);
  }

  lemma PositiveFlow(x: real, rate: real)
    requires rate > 0.0 && x >= 0.0
    ensures Flow(x, rate) <= 0.0 <==> x == 0.0
  {
  }

  // ---------------------------------------------------------------- the bound is tight

  /** An impatient caller: it calls again the moment the last call returns. */
  function Eager(l: Log, n: nat): (r: Log)
    requires l.bucket.rate > 0.0
    ensures r.bucket.rate == l.bucket.rate
    decreases n
  {
    if n == 0 then l else Eager(Call(l, l.done), n - 1)
  }

  function EagerTimes(l: Log, n: nat): seq<real>
    requires l.bucket.rate > 0.0
    decreases n
  {
    if n == 0 then [] else [l.done] + EagerTimes(Call(l, l.done), n - 1)
  }

  lemma {:induction false} EagerIsSequential(l: Log, n: nat)
    requires l.bucket.rate > 0.0
    ensures |EagerTimes(l, n)| == n && Sequential(l, EagerTimes(l, n)) && Calls(l, EagerTimes(l, n)) == Eager(l, n)
    decreases n
  {
    if n > 0 {
      EagerIsSequential(Call(l, l.done), n - 1);
      assert EagerTimes(l, n)[1..] == EagerTimes(Call(l, l.done), n - 1);
    }
  }

  /** An empty bucket serves two calls per 1/rate seconds: the first one sleeps, and the refill
    of that sleep pays for the second one as well. */
  lemma EagerPair(l: Log)
    requires l.bucket.rate > 0.0 && l.bucket.capacity >= 1.0 && l.bucket.tokens == 0.0 && l.done == l.bucket.last
    ensures var m := Eager(l, 2);
            && m.bucket.tokens == 0.0 && m.done == m.bucket.last == l.done + 1.0 / l.bucket.rate
            && m.bucket.rate == l.bucket.rate && m.bucket.capacity == l.bucket.capacity
  {
    var one := Call(l, l.done);
    assert one.done == l.done + 1.0 / l.bucket.rate;
    assert Flow(one.done - one.bucket.last, l.bucket.rate) == 1.0 by { WaitPaysForOne(0.0, l.bucket.rate); }
    assert Eager(l, 2) == Eager(one, 1) == Call(one, one.done);
  }

  lemma {:induction false} EagerPairs(l: Log, k: nat)
    requires l.bucket.rate > 0.0 && l.bucket.capacity >= 1.0 && l.bucket.tokens == 0.0 && l.done == l.bucket.last
    ensures Eager(l, 2 * k).done == l.done + k as real * (1.0 / l.bucket.rate)
    decreases k
  {
    if k > 0 {
      var m := Eager(l, 2);
      EagerPair(l);
      EagerPairs(m, k - 1);
      EagerSplit(l, 2, 2 * (k - 1));
      var w := 1.0 / l.bucket.rate;
      assert (k - 1) as real * w + w == k as real * w;
    }
  }

  lemma {:induction false} EagerSplit(l: Log, a: nat, b: nat)
    requires l.bucket.rate > 0.0
    ensures Eager(l, a + b) == Eager(Eager(l, a), b)
    decreases a
  {
    if a > 0 { EagerSplit(Call(l, l.done), a - 1, b); }
  }

  /** A full bucket of whole tokens is emptied without waiting. */
  lemma {:induction false} EagerDrain(l: Log, n: nat)
    requires l.bucket.rate > 0.0 && l.bucket.tokens == n as real <= l.bucket.capacity && l.done == l.bucket.last
    ensures var m := Eager(l, n);
            && m.bucket.tokens == 0.0 && m.done == m.bucket.last == l.done
            && m.bucket.rate == l.bucket.rate && m.bucket.capacity == l.bucket.capacity
    decreases n
  {
    if n > 0 {
      Distribute(0.0, 0.0, l.bucket.rate);
      EagerDrain(Call(l, l.done), n - 1);
    }
  }

  lemma WholeFlow(k: real, r: real)
    requires r > 0.0
    ensures Flow(k * (1.0 / r), r) == k
  {
  }

  lemma EagerRun(m: nat, start: real, k: nat)
    requires m >= 1
    ensures var l := Open(Create(m as real, start));
            Eager(l, m + 2 * k).done == start + k as real * (1.0 / m as real)
  {
    hide Eager;
    var l := Open(Create(m as real, start));
    EagerDrain(l, m);
    EagerSplit(l, m, 2 * k);
    EagerPairs(Eager(l, m), k);
  }

  /** Attained for every whole rate and every length of run: m + 2k calls within k / m. */
  lemma GrantBoundAttained(m: nat, start: real, k: nat)
    requires m >= 1
    ensures var b := Create(m as real, start);
            var times := EagerTimes(Open(b), m + 2 * k);
            && Sequential(Open(b), times)
            && |times| == m + 2 * k
            && |times| as real == b.capacity + 2.0 * Flow(Calls(Open(b), times).done - start, b.rate)
  {
    hide Eager, EagerTimes, Calls, Sequential;
    EagerRun(m, start, k);
    EagerIsSequential(Open(Create(m as real, start)), m + 2 * k);
    WholeFlow(k as real, m as real);
  }

  // --------------------------------------------------------------------- bursts

  function Burst(now: real, n: nat): seq<real> { if n == 0 then [] else [now] + Burst(now, n - 1) }

  /** The bucket of a caller who was idle long enough is full at `now`. */
  ghost predicate FullAt(l: Log, now: real, tokens: real) {
    l.bucket.tokens + (now - l.bucket.last) * l.bucket.rate >= tokens && tokens <= l.bucket.capacity
  }

  lemma IdleFills(l: Log, now: real)
    requires Valid(l.bucket) && l.bucket.tokens >= 0.0 && l.bucket.last <= l.done
    requires now >= l.done + l.bucket.capacity / l.bucket.rate
    ensures FullAt(l, now, l.bucket.capacity)
  {
    FlowOver(now - l.bucket.last, l.bucket.capacity / l.bucket.rate, l.bucket.rate, l.bucket.capacity);
  }

  lemma FlowOver(dt: real, needed: real, rate: real, tokens: real)
    requires rate > 0.0 && needed == tokens / rate && dt >= needed
    ensures dt * rate >= tokens
  {
    assert needed * rate == tokens;
    assert (dt - needed) * rate >= 0.0;
    assert dt * rate == needed * rate + (dt - needed) * rate;
  }

  /** A call that finds a token. */
  lemma CallServed(l: Log, now: real)
    requires Valid(l.bucket) && l.bucket.tokens + (now - l.bucket.last) * l.bucket.rate >= 1.0
    ensures var m, x := Call(l, now), l.bucket.tokens + (now - l.bucket.last) * l.bucket.rate;
            && m.waited == l.waited && m.done == now && Valid(m.bucket) && m.bucket.last == now
            && m.bucket.hits == l.bucket.hits
            && m.bucket.tokens + 1.0 == (if x <= l.bucket.capacity then x else l.bucket.capacity)
            && m.bucket.tokens + (now - m.bucket.last) * m.bucket.rate == m.bucket.tokens
  {
    AcquireExact(l.bucket, now);
  }

  lemma BurstCons(l: Log, now: real, n: nat)
    requires l.bucket.rate > 0.0 && n > 0
    ensures Calls(l, Burst(now, n)) == Calls(Call(l, now), Burst(now, n - 1))
  {
    hide Call;
    assert Burst(now, n)[0] == now && Burst(now, n)[1..] == Burst(now, n - 1);
  }

  /** With `n` tokens to be had, `n` calls at once are served without a wait. */
  lemma {:induction false} BurstServed(l: Log, now: real, n: nat)
    requires Valid(l.bucket) && FullAt(l, now, n as real)
    ensures var m := Calls(l, Burst(now, n));
            && m.waited == l.waited && m.bucket.hits == l.bucket.hits && (n > 0 ==> m.done == now)
    decreases n
  {
    hide Call, Calls, Burst;
    if n == 0 {
      NoBurst(l, now);
    } else {
      CallServed(l, now);
      BurstCons(l, now, n);
      BurstServed(Call(l, now), now, n - 1);
      if n == 1 { NoBurst(Call(l, now), now); }
    }
  }

  lemma NoBurst(l: Log, now: real)
    requires l.bucket.rate > 0.0
    ensures Calls(l, Burst(now, 0)) == l
  {
  }

  /** A burst as large as a full bucket leaves less than a token of it. */
  lemma {:induction false} BurstDrains(l: Log, now: real, n: nat)
    requires Valid(l.bucket) && n as real <= l.bucket.capacity && n > 0
    requires l.bucket.tokens + (now - l.bucket.last) * l.bucket.rate >= l.bucket.capacity
    ensures var b := Calls(l, Burst(now, n)).bucket; b.tokens == l.bucket.capacity - n as real && b.last == now
  {
    hide Call, Calls, Burst;
    CallServed(l, now);
    BurstCons(l, now, n);
    BurstRest(Call(l, now), now, n - 1);
  }

  lemma {:induction false} BurstRest(l: Log, now: real, n: nat)
    requires Valid(l.bucket) && n as real <= l.bucket.tokens <= l.bucket.capacity && l.bucket.last == now
    ensures var b := Calls(l, Burst(now, n)).bucket; b.tokens == l.bucket.tokens - n as real && b.last == now
    decreases n
  {
    hide Call, Calls, Burst;
    if n == 0 {
      NoBurst(l, now);
    } else {
      CallServed(l, now);
      BurstCons(l, now, n);
      BurstRest(Call(l, now), now, n - 1);
    }
  }

  lemma {:induction false} CallsConcat(l: Log, a: seq<real>, b: seq<real>)
    requires l.bucket.rate > 0.0
    ensures Calls(l, a + b) == Calls(Calls(l, a), b)
    decreases |a|
  {
    if a == [] {
      assert a + b == b;
    } else {
      CallsConcat(Call(l, a[0]), a[1..], b);
      assert (a + b)[0] == a[0] && (a + b)[1..] == a[1..] + b;
    }
  }

  lemma {:induction false} BurstSplit(now: real, a: nat, b: nat)
    ensures Burst(now, a + b) == Burst(now, a) + Burst(now, b)
    decreases a
  {
    if a > 0 {
      BurstSplit(now, a - 1, b);
    }
  }

  /** After any sequential run, a caller who was idle for capacity / rate seconds is served at once,
    without a wait, exactly as often as the capacity has whole tokens. */
  lemma IdleBurstExact(maxRps: real, start: real, times: seq<real>, now: real, n: nat)
    requires Sequential(Open(Create(maxRps, start)), times)
    requires var l := Calls(Open(Create(maxRps, start)), times);
             now >= l.done + l.bucket.capacity / l.bucket.rate
    ensures var l := Calls(Open(Create(maxRps, start)), times);
            var m := Calls(l, Burst(now, n));
            && (m.bucket.hits == l.bucket.hits <==> n <= l.bucket.capacity.Floor)
            && (n <= l.bucket.capacity.Floor ==> m.waited == l.waited)
  {
    var b := Create(maxRps, start);
    var l := Calls(Open(b), times);
    OpenBalanced(b);
    CallsBalanced(Open(b), times, start, b.capacity, b.rate);
    CallsHits(Open(b), times);
    IdleFills(l, now);
    if n <= l.bucket.capacity.Floor {
      BurstServed(l, now, n);
    } else {
      BurstOverflows(l, now, n);
    }
  }

  lemma BurstOverflows(l: Log, now: real, n: nat)
    requires Valid(l.bucket) && FullAt(l, now, l.bucket.capacity) && HitsTell(l) && n > l.bucket.capacity.Floor
    ensures Calls(l, Burst(now, n)).bucket.hits > l.bucket.hits
  {
    hide Call, Calls, Burst, HitsTell;
    var k := l.bucket.capacity.Floor;
    var m := Calls(l, Burst(now, k));
    BurstServed(l, now, k);
    BurstDrains(l, now, k);
    CallsHits(l, Burst(now, k));
    CallMissed(m, now);
    CallsHits(Call(m, now), Burst(now, n - k - 1));
    BurstSplit(now, k, n - k);
    CallsConcat(l, Burst(now, k), Burst(now, n - k));
    BurstCons(m, now, n - k);
  }

  /** A call that finds less than a token at the clock reading of the last one. */
  lemma CallMissed(l: Log, now: real)
    requires Valid(l.bucket) && l.bucket.tokens < 1.0 && l.bucket.last == now && HitsTell(l)
    ensures Call(l, now).bucket.hits > l.bucket.hits && HitsTell(Call(l, now))
  {
    AcquireExact(l.bucket, now);
    CallHits(l, now);
  }
}
