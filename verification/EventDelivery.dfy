/** What a cursor means in an ordered log: pages as slices of the history, what `cursor_lost`
  reports, which pages a client accepts, and how long a drain takes. */
module EventDelivery {
  import opened Prelude
  import opened Envelopes
  import opened SidecarState
  import opened RuntimeInvariants
  import opened SidecarClient

  // -------------------------------------------------------------- ordered sequences

  ghost predicate Ordered(es: seq<Event>) {
    forall i, j | 0 <= i < j < |es| :: es[i].callbackSeq < es[j].callbackSeq
  }

  /** The events with a number up to `cursor`, in order. */
  function UpTo(es: seq<Event>, cursor: nat): seq<Event> {
    if es == [] then []
    else (if es[0].callbackSeq <= cursor then [es[0]] else []) + UpTo(es[1..], cursor)
  }

  ghost predicate AllUpTo(es: seq<Event>, c: nat) { forall i | 0 <= i < |es| :: es[i].callbackSeq <= c }

  ghost predicate AllAbove(es: seq<Event>, c: nat) { forall i | 0 <= i < |es| :: es[i].callbackSeq > c }

  lemma {:induction false} AllAfter(b: seq<Event>, c: nat)
    requires AllAbove(b, c)
    ensures UpTo(b, c) == [] && After(b, c) == b
  {
    if b != [] {
      AllAfter(b[1..], c);
      assert b == [b[0]] + b[1..];
    }
  }

  /** A sequence whose first part is at most `c` and whose second part is above it. */
  lemma {:induction false} Split(a: seq<Event>, b: seq<Event>, c: nat)
    requires AllUpTo(a, c) && AllAbove(b, c)
    ensures UpTo(a + b, c) == a && After(a + b, c) == b
  {
    if a == [] {
      AllAfter(b, c);
      assert [] + b == b;
    } else {
      Split(a[1..], b, c);
      assert (a + b)[1..] == a[1..] + b;
    }
  }

  /** The position of a cursor in an ordered sequence. */
  lemma Cut(es: seq<Event>, c: nat) returns (k: nat)
    requires Ordered(es)
    ensures k <= |es| && AllUpTo(es[..k], c) && AllAbove(es[k..], c)
  {
    k := 0;
    while k < |es| && es[k].callbackSeq <= c
      invariant k <= |es| && AllUpTo(es[..k], c)
    {
      k := k + 1;
    }
  }

  /** Reading past a cursor gives the same from the whole sequence and from any later start. */
  lemma SplitAt(es: seq<Event>, d: nat, k: nat, c: nat)
    requires d <= k <= |es| && AllUpTo(es[..k], c) && AllAbove(es[k..], c)
    ensures UpTo(es, c) == es[..k]
    ensures After(es, c) == es[k..] && After(es[d..], c) == es[k..]
  {
    assert es == es[..k] + es[k..];
    Split(es[..k], es[k..], c);
    assert es[d..] == es[d..k] + es[k..];
    assert forall i | 0 <= i < k - d :: es[d..k][i] == es[..k][i + d];
    Split(es[d..k], es[k..], c);
  }

  /** The part of the runtime's invariant that reading depends on. */
  ghost predicate Holds(s: State, acc: seq<Event>) { Kept(s.buffer, s.config.maxEvents, acc) }

  // ------------------------------------------------------------------- what is lost

  /** An event above the cursor was evicted. */
  ghost predicate ReallyLost(acc: seq<Event>, dropped: nat, after: nat) {
    exists i | 0 <= i < dropped && i < |acc| :: acc[i].callbackSeq > after
  }

  /** `cursor_lost` in full: it reports every real loss, and it also fires when the numbers
    just above the cursor were skipped rather than evicted. */
  lemma CursorLostExact(s: State, acc: seq<Event>, after: nat, limit: nat)
    requires Holds(s, acc) && Ordered(acc)
    ensures var d := s.buffer.droppedBufferCount;
            var lastGone := if d == 0 then 0 else acc[d - 1].callbackSeq;
            PageAfter(s, after, limit).cursorLost
            <==> ReallyLost(acc, d, after)
                 || (s.buffer.events != [] && lastGone <= after && after + 1 < s.buffer.events[0].callbackSeq)
  {
    var d, es := s.buffer.droppedBufferCount, s.buffer.events;
    if es != [] {
      assert es[0] == acc[d];
      if ReallyLost(acc, d, after) {
        var i :| 0 <= i < d && acc[i].callbackSeq > after;
        assert acc[i].callbackSeq < acc[d].callbackSeq;
      } else if d > 0 {
        assert acc[d - 1].callbackSeq <= after;
      }
    }
  }

  /** When no number was skipped the flag is exact. */
  lemma CursorLostContiguous(s: State, acc: seq<Event>, after: nat, limit: nat)
    requires Holds(s, acc) && Ordered(acc) && forall i | 0 <= i < |acc| :: acc[i].callbackSeq == i + 1
    ensures PageAfter(s, after, limit).cursorLost <==> ReallyLost(acc, s.buffer.droppedBufferCount, after)
  {
    CursorLostExact(s, acc, after, limit);
    var d := s.buffer.droppedBufferCount;
    if s.buffer.events != [] { assert s.buffer.events[0] == acc[d]; }
  }

  /** Numbers are contiguous from 1 when none of those handed out was abandoned or refused. */
  lemma NothingWasted(acc: seq<Event>)
    requires Ordered(acc) && forall i | 0 <= i < |acc| :: acc[i].callbackSeq <= |acc|
    ensures forall i | 0 <= i < |acc| :: acc[i].callbackSeq == i + 1
  {
    forall i | 0 <= i < |acc| ensures acc[i].callbackSeq == i + 1 {
      AtLeastIndex(acc, i);
      AtMostIndex(acc, i);
    }
  }

  lemma {:induction false} AtLeastIndex(acc: seq<Event>, i: nat)
    requires Ordered(acc) && i < |acc|
    ensures acc[i].callbackSeq >= i + 1
  {
    if i > 0 { AtLeastIndex(acc, i - 1); }
  }

  lemma {:induction false} AtMostIndex(acc: seq<Event>, i: nat)
    requires Ordered(acc) && i < |acc| && acc[|acc| - 1].callbackSeq <= |acc|
    ensures acc[i].callbackSeq <= i + 1
    decreases |acc| - i
  {
    if i + 1 < |acc| { AtMostIndex(acc, i + 1); }
  }

  // ------------------------------------------------------------------- honest pages

  /** Where a cursor that is not lost stands in the history: at or after the evicted part. */
  lemma CursorPosition(s: State, acc: seq<Event>, after: nat, limit: nat) returns (k: nat)
    requires Holds(s, acc) && Ordered(acc) && !PageAfter(s, after, limit).cursorLost
    ensures s.buffer.droppedBufferCount <= k <= |acc|
    ensures AllUpTo(acc[..k], after) && AllAbove(acc[k..], after)
    ensures UpTo(acc, after) == acc[..k]
    ensures After(acc, after) == acc[k..] && After(s.buffer.events, after) == acc[k..]
  {
    var d := s.buffer.droppedBufferCount;
    k := Cut(acc, after);
    CursorLostExact(s, acc, after, limit);
    assert forall i | 0 <= i < d :: acc[i].callbackSeq <= after;
    assert k < |acc| ==> acc[k..][0] == acc[k];
    SplitAt(acc, d, k, after);
  }

  /** A page in terms of the history: the slice from position `k`, at most `limit` long. */
  lemma PageSlice(s: State, acc: seq<Event>, k: nat, after: nat, limit: nat)
    requires k <= |acc| && limit >= 1 && After(s.buffer.events, after) == acc[k..]
    ensures var p, m := PageAfter(s, after, limit), SliceEnd(acc, k, limit);
            && p.events == acc[k..m] && (k < |acc| ==> k < m)
            && p.nextCursor == (if k == |acc| then after else acc[m - 1].callbackSeq)
  {
    var m := SliceEnd(acc, k, limit);
    assert Take(acc[k..], limit) == acc[k..m];
  }

  ghost function SliceEnd(acc: seq<Event>, k: nat, limit: nat): (m: nat)
    requires k <= |acc|
    ensures k <= m <= |acc|
  {
    if |acc| - k <= limit then |acc| else k + limit
  }

  /** The page of an ordered log whose cursor is not lost continues exactly at the cursor. */
  lemma PageContinues(s: State, acc: seq<Event>, after: nat, limit: nat) returns (k: nat, m: nat)
    requires Holds(s, acc) && Ordered(acc) && limit >= 1
    requires !PageAfter(s, after, limit).cursorLost
    ensures k <= m <= |acc| && (k < |acc| ==> k < m) && m == SliceEnd(acc, k, limit)
    ensures s.buffer.droppedBufferCount <= k && AllAbove(acc[k..], after)
    ensures UpTo(acc, after) == acc[..k] && After(acc, after) == acc[k..]
    ensures var p := PageAfter(s, after, limit);
            && p.events == acc[k..m]
            && p.nextCursor == (if k == |acc| then after else acc[m - 1].callbackSeq)
            && p.nextCursor >= after
            && UpTo(acc, p.nextCursor) == acc[..m] && After(acc, p.nextCursor) == acc[m..]
            && (p.hasMore <==> m < |acc|)
  {
    hide Ordered, UpTo, After, AllUpTo;
    k := CursorPosition(s, acc, after, limit);
    m := SliceEnd(acc, k, limit);
    PageSlice(s, acc, k, after, limit);
    if k < |acc| {
      assert acc[m - 1] == acc[k..][m - 1 - k];
      SplitBelow(acc, s.buffer.droppedBufferCount, m);
    }
  }

  /** The number of the last event before position `m` is a cursor that stands at `m`. */
  lemma SplitBelow(acc: seq<Event>, d: nat, m: nat)
    requires Ordered(acc) && d <= m && 0 < m <= |acc|
    ensures var c := acc[m - 1].callbackSeq;
            UpTo(acc, c) == acc[..m] && After(acc, c) == acc[m..] && After(acc[d..], c) == acc[m..]
  {
    SplitAt(acc, d, m, acc[m - 1].callbackSeq);
  }

  ghost predicate Accepts(lib: Lib, p: WirePage, after: int, limit: int, x: Expectation, now: int) {
    && ArgumentsOk(after, limit, x)
    && DecodeAll(lib, p.events, now).Some?
    && PageOk(p, DecodeAll(lib, p.events, now).value, after, limit, x)
  }

  /** A client accepts a page of an ordered log exactly when nothing was lost, its clock is not
    behind the events, and they match the feed mode and symbols it expects. */
  lemma HonestPageAccepted(lib: Lib, s: State, acc: seq<Event>, after: nat, limit: nat, x: Expectation, now: int)
    requires LibOk(lib) && Holds(s, acc) && Ordered(acc) && AllBuilt(lib, acc)
    requires ArgumentsOk(after, limit, x) && IdentifierText(s.config.sessionId)
    requires x.sessionId.Some? ==> x.sessionId.value == s.config.sessionId
    ensures var p := PageAfter(s, after, limit);
            Accepts(lib, ToWire(lib, p), after, limit, x, now)
            <==> && !p.cursorLost
                 && AllFresh(p.events, now)
                 && forall i | 0 <= i < |p.events| :: EventFits(p.events[i], s.config.sessionId, x)
    ensures var p := PageAfter(s, after, limit);
            Accepts(lib, ToWire(lib, p), after, limit, x, now)
            ==> DecodeAll(lib, ToWire(lib, p).events, now) == Some(p.events)
  {
    var p := PageAfter(s, after, limit);
    if !p.cursorLost {
      PageDecodes(lib, s, acc, after, limit, now);
      if AllFresh(p.events, now) {
        PageInOrder(s, acc, after, limit);
        HonestPageOk(lib, p, after, limit, x);
      }
    }
  }

  lemma PageDecodes(lib: Lib, s: State, acc: seq<Event>, after: nat, limit: nat, now: int)
    requires LibOk(lib) && Holds(s, acc) && Ordered(acc) && AllBuilt(lib, acc)
    requires limit >= 1 && !PageAfter(s, after, limit).cursorLost
    ensures var p := PageAfter(s, after, limit);
            DecodeAll(lib, ToWire(lib, p).events, now) == if AllFresh(p.events, now) then Some(p.events) else None
  {
    var k, m := PageContinues(s, acc, after, limit);
    SliceBuilt(lib, acc, k, m);
    DecodeHonest(lib, acc[k..m], now);
  }

  lemma PageInOrder(s: State, acc: seq<Event>, after: nat, limit: nat)
    requires Holds(s, acc) && Ordered(acc) && limit >= 1
    requires !PageAfter(s, after, limit).cursorLost
    ensures var p := PageAfter(s, after, limit);
            && p.after == after && p.nextCursor >= after && |p.events| <= limit && p.sessionId == s.config.sessionId
            && (p.events != [] ==> p.oldestCursor <= p.events[0].callbackSeq)
            && RisesFrom(after, p.events)
            && p.nextCursor == (if p.events == [] then after else p.events[|p.events| - 1].callbackSeq)
            && (p.events == [] ==> !p.hasMore)
  {
    var k, m := PageContinues(s, acc, after, limit);
    SliceRises(acc, k, m, after);
    if k < m { OldestFirst(s, acc, k, m); }
  }

  lemma SliceRises(acc: seq<Event>, k: nat, m: nat, after: nat)
    requires Ordered(acc) && k <= m <= |acc| && AllAbove(acc[k..], after)
    ensures RisesFrom(after, acc[k..m])
  {
    forall i | 0 <= i < m - k ensures acc[k..m][i] == acc[k + i] && acc[k..m][i] == acc[k..][i] {}
  }

  lemma SliceBuilt(lib: Lib, acc: seq<Event>, k: nat, m: nat)
    requires k <= m <= |acc| && AllBuilt(lib, acc)
    ensures AllBuilt(lib, acc[k..m])
  {
    forall i | 0 <= i < m - k ensures acc[k..m][i] == acc[k + i] {}
  }

  lemma OldestFirst(s: State, acc: seq<Event>, k: nat, m: nat)
    requires Holds(s, acc) && Ordered(acc) && s.buffer.droppedBufferCount <= k < m <= |acc|
    ensures s.buffer.events != [] && s.buffer.events[0].callbackSeq <= acc[k..m][0].callbackSeq
  {
    assert s.buffer.events[0] == acc[s.buffer.droppedBufferCount];
  }

  lemma HonestPageOk(lib: Lib, p: Page, after: nat, limit: nat, x: Expectation)
    requires !p.cursorLost && p.after == after && p.nextCursor >= after && |p.events| <= limit
    requires IdentifierText(p.sessionId) && (x.sessionId.Some? ==> x.sessionId.value == p.sessionId)
    requires p.events != [] ==> p.oldestCursor <= p.events[0].callbackSeq
    requires RisesFrom(after, p.events)
    requires p.nextCursor == if p.events == [] then after else p.events[|p.events| - 1].callbackSeq
    requires p.events == [] ==> !p.hasMore
    ensures PageOk(ToWire(lib, p), p.events, after, limit, x)
            <==> forall i | 0 <= i < |p.events| :: EventFits(p.events[i], p.sessionId, x)
  {
  }

  // ------------------------------------------------------------------------ draining

  lemma {:induction false} AfterShrinks(es: seq<Event>, c: nat, n: nat)
    requires c <= n
    ensures |After(es, n)| <= |After(es, c)|
    ensures (exists e | e in es :: c < e.callbackSeq <= n) ==> |After(es, n)| < |After(es, c)|
  {
    if es != [] {
      AfterShrinks(es[1..], c, n);
      assert es == [es[0]] + es[1..];
    }
  }

  lemma {:induction false} AfterIn(es: seq<Event>, c: nat)
    ensures forall e | e in After(es, c) :: e in es && e.callbackSeq > c
  {
    if es != [] { AfterIn(es[1..], c); }
  }

  /** The pages a client reads when nothing is produced meanwhile. */
  function Drain(s: State, after: nat, limit: nat): seq<seq<Event>>
    requires limit >= 1
    decreases |After(s.buffer.events, after)|
  {
    var p := PageAfter(s, after, limit);
    if p.hasMore && p.events != [] then
      assert |After(s.buffer.events, p.nextCursor)| < |After(s.buffer.events, after)| by {
        var e := p.events[|p.events| - 1];
        AfterIn(s.buffer.events, after);
        assert e in After(s.buffer.events, after);
        AfterShrinks(s.buffer.events, after, p.nextCursor);
      }
      [p.events] + Drain(s, p.nextCursor, limit)
    else [p.events]
  }

  function Flatten(pages: seq<seq<Event>>): seq<Event> {
    if pages == [] then [] else pages[0] + Flatten(pages[1..])
  }

  /** `n` is max(1, ceil(k / limit)). */
  ghost predicate PollsFor(n: nat, k: nat, limit: nat) {
    if k == 0 then n == 1 else n >= 1 && (n - 1) * limit < k <= n * limit
  }

  /** Draining reads every pending event once, in order, in max(1, ceil(k / limit)) polls. */
  lemma DrainExact(s: State, acc: seq<Event>, after: nat, limit: nat)
    requires Holds(s, acc) && Ordered(acc) && limit >= 1
    requires !PageAfter(s, after, limit).cursorLost
    ensures Flatten(Drain(s, after, limit)) == After(acc, after)
    ensures PollsFor(|Drain(s, after, limit)|, |After(acc, after)|, limit)
  {
    DrainContents(s, acc, after, limit);
    DrainCount(s, acc, after, limit);
  }

  lemma {:induction false} DrainContents(s: State, acc: seq<Event>, after: nat, limit: nat)
    requires Holds(s, acc) && Ordered(acc) && limit >= 1
    requires !PageAfter(s, after, limit).cursorLost
    ensures Flatten(Drain(s, after, limit)) == After(acc, after)
    decreases |After(acc, after)|
  {
    var p := PageAfter(s, after, limit);
    if p.hasMore {
      DrainMore(s, acc, after, limit);
      StillThere(s, after, p.nextCursor, limit);
      DrainContents(s, acc, p.nextCursor, limit);
      FlattenCons(p.events, Drain(s, p.nextCursor, limit));
    } else {
      DrainLast(s, acc, after, limit);
      FlattenCons(p.events, []);
      assert [p.events] + [] == [p.events] && p.events + [] == p.events;
    }
  }

  lemma FlattenCons(page: seq<Event>, rest: seq<seq<Event>>)
    ensures Flatten([page] + rest) == page + Flatten(rest)
  {
    assert ([page] + rest)[1..] == rest;
  }

  lemma {:induction false} DrainCount(s: State, acc: seq<Event>, after: nat, limit: nat)
    requires Holds(s, acc) && Ordered(acc) && limit >= 1
    requires !PageAfter(s, after, limit).cursorLost
    ensures PollsFor(|Drain(s, after, limit)|, |After(acc, after)|, limit)
    decreases |After(acc, after)|
  {
    hide PageAfter, After, Kept, Ordered, PollsFor;
    var p := PageAfter(s, after, limit);
    if p.hasMore {
      DrainMore(s, acc, after, limit);
      StillThere(s, after, p.nextCursor, limit);
      DrainCount(s, acc, p.nextCursor, limit);
      OneMorePage(|Drain(s, p.nextCursor, limit)|, limit, |After(acc, p.nextCursor)|);
    } else {
      DrainLast(s, acc, after, limit);
      OnePage(|p.events|, limit);
    }
  }

  lemma OnePage(k: nat, limit: nat)
    requires k <= limit
    ensures PollsFor(1, k, limit)
  {
  }

  lemma OneMorePage(n: nat, limit: nat, k: nat)
    requires k > 0 && PollsFor(n, k, limit)
    ensures PollsFor(n + 1, k + limit, limit)
  {
  }

  lemma FullSlice(acc: seq<Event>, k: nat, m: nat, limit: nat)
    requires k <= m < |acc| && m == SliceEnd(acc, k, limit)
    ensures acc[k..] == acc[k..m] + acc[m..] && |acc[k..m]| == limit && acc[m..] != []
  {
  }

  /** A page that has more is full and leaves later events. */
  lemma DrainMore(s: State, acc: seq<Event>, after: nat, limit: nat)
    requires Holds(s, acc) && Ordered(acc) && limit >= 1
    requires !PageAfter(s, after, limit).cursorLost && PageAfter(s, after, limit).hasMore
    ensures var p := PageAfter(s, after, limit);
            && p.events != [] && p.nextCursor >= after
            && After(acc, after) == p.events + After(acc, p.nextCursor)
            && |p.events| == limit && After(acc, p.nextCursor) != []
  {
    var k, m := PageContinues(s, acc, after, limit);
    FullSlice(acc, k, m, limit);
  }

  lemma StillThere(s: State, after: nat, later: nat, limit: nat)
    requires !PageAfter(s, after, limit).cursorLost && after <= later
    ensures !PageAfter(s, later, limit).cursorLost
  {
  }

  /** A page that has no more is the last and holds everything that is pending. */
  lemma DrainLast(s: State, acc: seq<Event>, after: nat, limit: nat)
    requires Holds(s, acc) && Ordered(acc) && limit >= 1
    requires !PageAfter(s, after, limit).cursorLost && !PageAfter(s, after, limit).hasMore
    ensures var p := PageAfter(s, after, limit);
            After(acc, after) == p.events && |p.events| <= limit
  {
    var k, m := PageContinues(s, acc, after, limit);
    assert acc[k..m] == acc[k..];
  }
}
