/** The server-sent-events hub (stock_tracker/api/sse.py). Each queue operation of a publish is
  one step, and so is each dequeue by a client. */
module SseHub {
  import opened Prelude

  const FORWARD_TOPICS: set<string> :=
    {"quote", "signal", "regime", "sector", "provider_health", "monitor.inbox", "monitor.notification"}

  /** An event, or the marker of an overflow. */
  datatype Item = Event(topic: string, payload: string) | Overflow

  // --------------------------------------------------------------- one client's queue

  /** A `queue.Queue`: a size limit below 1 means none. */
  datatype Queue = Queue(maxSize: int, items: seq<Item>, taken: seq<Item>)

  predicate Full(q: Queue) { 0 < q.maxSize <= |q.items| }

  /** Everything the client got or will get. */
  function Received(q: Queue): seq<Item> { q.taken + q.items }

  /** `put_nowait`, and on overflow drop the head and leave the marker; the flag says the client
    stays registered. */
  function Put(q: Queue, x: Item): (Queue, bool) {
    if !Full(q) then (q.(items := q.items + [x]), true)
    else (q.(items := q.items[1..] + [Overflow]), false)
  }

  function Get(q: Queue): Queue {
    if q.items == [] then q else q.(items := q.items[1..], taken := q.taken + [q.items[0]])
  }

  // ------------------------------------------------------------------- the hub's state

  type Id = nat

  /** Where a client stands: on the list, overflowed by the event at an index of the log and
    waiting for its head to be dropped or for the marker, marked, or off the list. */
  datatype Fate =
    | In
    | Jammed(at: nat)
    | Evicted(at: nat)
    | Marked(at: nat)
    | Out(at: nat)

  /** A client's queue, with what it had received and how long the log was when it joined. */
  datatype Client = Client(queue: Queue, base: seq<Item>, joined: nat, fate: Fate)

  /** The hub under its lock: `log` has every forwarded event so far, `todo` the clients that the
    event being published has still to reach. */
  datatype Hub = Hub(clients: map<Id, Client>, registered: set<Id>, log: seq<Item>, todo: Option<set<Id>>)

  /** The steps of the hub, in which a publish offers its event to one client at a time, and
    the dequeue of a client, which takes only the queue's own lock and may fall anywhere. */
  datatype Step =
    | Add(id: Id)
    | Remove(id: Id)
    | Publish(topic: string, payload: string)
    | Offer(id: Id)
    | Evict(id: Id)
    | Mark(id: Id)
    | Finish
    | Dequeue(id: Id)

  /** Some client of the publish in progress is between its failed put and its marker. */
  predicate Busy(h: Hub) {
    exists id | id in h.clients :: Pending(h.clients[id])
  }

  predicate Pending(c: Client) { c.fate.Jammed? || c.fate.Evicted? }

  /** The list without the overflowed clients. */
  function StillIn(h: Hub): set<Id> { set id | id in h.registered && id in h.clients && h.clients[id].fate.In? }

  function Join(c: Client, now: nat): Client { Client(c.queue, Received(c.queue), now, In) }

  /** `put_nowait` of the event; a full queue is dealt with by the next two steps. */
  function Offered(c: Client, x: Item, now: nat): Client {
    if Full(c.queue) then c.(fate := Jammed(now)) else c.(queue := c.queue.(items := c.queue.items + [x]))
  }

  function Head(q: Queue): Queue { if q.items == [] then q else q.(items := q.items[1..]) }

  /** `put_nowait` of the marker, after another `get_nowait` should the queue be full again. */
  function MarkedQueue(q: Queue): Queue {
    var r := if Full(q) then Head(q) else q;
    r.(items := r.items + [Overflow])
  }

  /** A step that the lock or the order of the hub's steps does not allow does nothing. */
  function Next(h: Hub, step: Step): Hub {
    match step
    case Add(id) =>
      if h.todo.Some? || id !in h.clients || id in h.registered then h
      else Hub(h.clients[id := Join(h.clients[id], |h.log|)], h.registered + {id}, h.log, None)
    case Remove(id) =>
      if h.todo.Some? || id !in h.clients || id !in h.registered then h
      else Hub(h.clients[id := h.clients[id].(fate := Out(|h.log|))], h.registered - {id}, h.log, None)
    case Publish(topic, payload) =>
      if h.todo.Some? || topic !in FORWARD_TOPICS then h
      else h.(log := h.log + [Event(topic, payload)], todo := Some(h.registered))
    case Offer(id) =>
      if h.todo.None? || id !in h.todo.value || id !in h.clients || h.log == [] || Busy(h) then h
      else h.(clients := h.clients[id := Offered(h.clients[id], h.log[|h.log| - 1], |h.log| - 1)],
              todo := Some(h.todo.value - {id}))
    case Evict(id) =>
      if id !in h.clients || !h.clients[id].fate.Jammed? then h
      else
        var c := h.clients[id];
        h.(clients := h.clients[id := c.(queue := Head(c.queue), fate := Evicted(c.fate.at))])
    case Mark(id) =>
      if id !in h.clients || !h.clients[id].fate.Evicted? then h
      else
        var c := h.clients[id];
        h.(clients := h.clients[id := c.(queue := MarkedQueue(c.queue), fate := Marked(c.fate.at))])
    case Finish =>
      if h.todo != Some({}) || Busy(h) then h
      else Hub(h.clients, StillIn(h), h.log, None)
    case Dequeue(id) =>
      if id !in h.clients then h
      else h.(clients := h.clients[id := h.clients[id].(queue := Get(h.clients[id].queue))])
  }

  function Run(h: Hub, steps: seq<Step>): Hub
    decreases |steps|
  {
    if steps == [] then h else Run(Next(h, steps[0]), steps[1..])
  }

  /** Before any client joined; the queues may have been used before. */
  ghost predicate Initial(h: Hub) {
    && h.registered == {} && h.log == [] && h.todo == None
    && forall id | id in h.clients ::
         Fits(h.clients[id].queue) && h.clients[id].fate == Out(0) && h.clients[id].joined == 0
         && h.clients[id].base == Received(h.clients[id].queue)
  }

  // -------------------------------------------------------------------- the invariant

  predicate Fits(q: Queue) { q.maxSize <= 0 || |q.items| <= q.maxSize }

  /** What a client was to receive from when it joined up to an index of the log. */
  function Due(c: Client, log: seq<Item>, at: nat): seq<Item>
    requires c.joined <= at <= |log|
  {
    c.base + log[c.joined..at]
  }

  /** The whole sequence, or all of it but one item. */
  ghost predicate MissesAtMostOne(got: seq<Item>, full: seq<Item>) {
    got == full || exists cut | 0 <= cut < |full| :: got == full[..cut] + full[cut + 1..]
  }

  /** How far a client's queue must be: a client that the event in progress has still to reach
    has everything but that event. */
  ghost predicate ClientInv(c: Client, log: seq<Item>, waiting: bool) {
    && Fits(c.queue) && c.joined <= |log|
    && match c.fate
       case In =>
         var at := if waiting then |log| - 1 else |log|;
         c.joined <= at && Received(c.queue) == Due(c, log, at)
       case Jammed(at) =>
         c.joined <= at == |log| - 1 && c.queue.maxSize > 0 && Received(c.queue) == Due(c, log, at)
       case Evicted(at) =>
         && c.joined <= at == |log| - 1 && c.queue.maxSize > 0 && !Full(c.queue)
         && MissesAtMostOne(Received(c.queue), Due(c, log, at))
       case Marked(at) =>
         && c.joined <= at < |log| && Received(c.queue) != []
         && Received(c.queue)[|Received(c.queue)| - 1] == Overflow
         && MissesAtMostOne(Received(c.queue)[..|Received(c.queue)| - 1], Due(c, log, at))
       case Out(at) => c.joined <= at <= |log| && Received(c.queue) == Due(c, log, at)
  }

  /** Only the event in progress can be between its failed put and its marker. */
  predicate Timely(f: Fate, n: nat) {
    ((f.Jammed? || f.Evicted?) ==> f.at == n - 1) && (f.Marked? ==> f.at < n)
  }

  ghost predicate Waiting(h: Hub, id: Id) { h.todo.Some? && id in h.todo.value }

  ghost predicate HubInv(h: Hub) {
    && h.registered <= h.clients.Keys
    && (h.todo.Some? ==> h.todo.value <= h.registered && h.log != [])
    && (forall id | id in h.clients ::
          && ClientInv(h.clients[id], h.log, Waiting(h, id)) && Timely(h.clients[id].fate, |h.log|)
          && (Waiting(h, id) ==> h.clients[id].fate.In?)
          && (h.todo.None? ==> !Pending(h.clients[id]))
          && (id in h.registered <==> Listed(h, id)))
  }

  /** While an event is being published the overflowed clients are still on the list. */
  ghost predicate Listed(h: Hub, id: Id)
    requires id in h.clients
  {
    var f := h.clients[id].fate;
    f.In? || f.Jammed? || f.Evicted? || (f.Marked? && h.todo.Some? && f.at == |h.log| - 1)
  }

  lemma DequeueKeeps(q: Queue)
    ensures Received(Get(q)) == Received(q)
    ensures Fits(q) ==> Fits(Get(q))
    ensures !Full(q) ==> !Full(Get(q))
  {
    if q.items != [] {
      assert q.items == [q.items[0]] + q.items[1..];
    }
  }

  lemma HeadDropped(q: Queue)
    requires Fits(q)
    ensures Fits(Head(q)) && (q.maxSize > 0 ==> !Full(Head(q)))
    ensures MissesAtMostOne(Received(Head(q)), Received(q))
  {
    if q.items != [] {
      var cut := |q.taken|;
      assert Received(q)[..cut] == q.taken && Received(q)[cut + 1..] == q.items[1..];
    }
  }

  lemma MarkerLast(q: Queue)
    requires q.maxSize > 0 && !Full(q)
    ensures MarkedQueue(q).taken == q.taken && MarkedQueue(q).items == q.items + [Overflow]
    ensures Received(MarkedQueue(q)) == Received(q) + [Overflow] && Fits(MarkedQueue(q))
  {
  }

  /** A longer log has the same events below an index. */
  lemma DueStays(c: Client, log: seq<Item>, more: seq<Item>, at: nat)
    requires c.joined <= at <= |log|
    ensures Due(c, log + more, at) == Due(c, log, at)
  {
    assert (log + more)[c.joined..at] == log[c.joined..at];
  }

  lemma JoinInv(c: Client, log: seq<Item>)
    requires Fits(c.queue)
    ensures ClientInv(Join(c, |log|), log, false)
  {
    assert log[|log|..] == [] && Received(c.queue) + [] == Received(c.queue);
  }

  lemma DequeueInv(c: Client, log: seq<Item>, waiting: bool)
    requires ClientInv(c, log, waiting)
    ensures ClientInv(c.(queue := Get(c.queue)), log, waiting)
  {
    hide Received, Get, Full, Fits, MissesAtMostOne, Due;
    DequeueKeeps(c.queue);
    SameDue(c, Get(c.queue), log);
  }

  lemma SameDue(c: Client, q: Queue, log: seq<Item>)
    ensures q.maxSize == c.queue.maxSize ==>
              forall at: nat | c.joined <= at <= |log| :: Due(c.(queue := q), log, at) == Due(c, log, at)
    ensures Get(c.queue).maxSize == c.queue.maxSize
  {
  }

  lemma OfferInv(c: Client, log: seq<Item>)
    requires ClientInv(c, log, true) && c.fate.In? && log != []
    ensures ClientInv(Offered(c, log[|log| - 1], |log| - 1), log, false)
  {
    var n := |log| - 1;
    if !Full(c.queue) {
      var q := c.queue.(items := c.queue.items + [log[n]]);
      assert Received(q) == Received(c.queue) + [log[n]];
      assert log[c.joined..] == log[c.joined..n] + [log[n]];
      assert Due(c, log, |log|) == Due(c, log, n) + [log[n]];
    }
  }

  lemma EvictInv(c: Client, log: seq<Item>, waiting: bool)
    requires ClientInv(c, log, waiting) && c.fate.Jammed?
    ensures ClientInv(c.(queue := Head(c.queue), fate := Evicted(c.fate.at)), log, waiting)
  {
    HeadDropped(c.queue);
    hide Received, MissesAtMostOne, Full, Fits;
    var d := c.(queue := Head(c.queue), fate := Evicted(c.fate.at));
    assert Due(d, log, c.fate.at) == Due(c, log, c.fate.at);
  }

  lemma MarkInv(c: Client, log: seq<Item>, waiting: bool)
    requires ClientInv(c, log, waiting) && c.fate.Evicted?
    ensures ClientInv(c.(queue := MarkedQueue(c.queue), fate := Marked(c.fate.at)), log, waiting)
  {
    MarkerLast(c.queue);
    hide MarkedQueue, MissesAtMostOne, Full, Fits;
    var d := c.(queue := MarkedQueue(c.queue), fate := Marked(c.fate.at));
    var got := Received(c.queue);
    assert (got + [Overflow])[..|got|] == got;
    assert Due(d, log, c.fate.at) == Due(c, log, c.fate.at);
  }

  /** A new event leaves every client where it was, one event behind if it is on the list. */
  lemma PublishInv(c: Client, log: seq<Item>, x: Item)
    requires ClientInv(c, log, false) && !Pending(c)
    ensures ClientInv(c, log + [x], c.fate.In?)
  {
    hide Received, MissesAtMostOne, Full, Fits, Due;
    match c.fate
    case In => DueStays(c, log, [x], |log|);
    case Marked(at) => DueStays(c, log, [x], at);
    case Out(at) => DueStays(c, log, [x], at);
  }

  /** Only one client changes, and the clients still to be reached lose it or stay. */
  lemma OneClientInv(h: Hub, id: Id, c: Client, todo: Option<set<Id>>)
    requires HubInv(h) && id in h.clients
    requires todo == h.todo || (h.todo.Some? && todo == Some(h.todo.value - {id}))
    requires var g := h.(clients := h.clients[id := c], todo := todo);
             && ClientInv(c, h.log, Waiting(g, id)) && Timely(c.fate, |h.log|) && (Waiting(g, id) ==> c.fate.In?)
             && (id in h.registered <==> Listed(g, id))
             && (h.todo.None? ==> !Pending(c))
    ensures HubInv(h.(clients := h.clients[id := c], todo := todo))
  {
    hide ClientInv;
  }

  lemma StepInv(h: Hub, step: Step)
    requires HubInv(h)
    ensures HubInv(Next(h, step))
  {
    hide ClientInv, Join, Offered, Head, MarkedQueue, Get;
    match step
    case Add(id) => AddInv(h, id);
    case Remove(id) => RemoveInv(h, id);
    case Publish(topic, payload) => BeginInv(h, topic, payload);
    case Offer(id) => OfferStep(h, id);
    case Evict(id) => EvictStep(h, id);
    case Mark(id) => MarkStep(h, id);
    case Finish => FinishInv(h);
    case Dequeue(id) => DequeueStep(h, id);
  }

  lemma AddInv(h: Hub, id: Id)
    requires HubInv(h)
    ensures HubInv(Next(h, Add(id)))
  {
    if h.todo.None? && id in h.clients && id !in h.registered {
      FitsAlways(h, id);
      JoinInv(h.clients[id], h.log);
      hide ClientInv;
    }
  }

  lemma FitsAlways(h: Hub, id: Id)
    requires HubInv(h) && id in h.clients
    ensures Fits(h.clients[id].queue)
  {
  }

  lemma RemoveInv(h: Hub, id: Id)
    requires HubInv(h)
    ensures HubInv(Next(h, Remove(id)))
  {
    if h.todo.None? && id in h.clients && id in h.registered {
      LeaveInv(h.clients[id], h.log);
      hide ClientInv;
    }
  }

  lemma LeaveInv(c: Client, log: seq<Item>)
    requires ClientInv(c, log, false) && c.fate.In?
    ensures ClientInv(c.(fate := Out(|log|)), log, false)
  {
    assert Due(c.(fate := Out(|log|)), log, |log|) == Due(c, log, |log|);
  }

  lemma BeginInv(h: Hub, topic: string, payload: string)
    requires HubInv(h)
    ensures HubInv(Next(h, Publish(topic, payload)))
  {
    hide ClientInv;
    var g := Next(h, Publish(topic, payload));
    if h.todo.None? && topic in FORWARD_TOPICS {
      forall id | id in h.clients ensures ClientInv(g.clients[id], g.log, Waiting(g, id)) {
        PublishInv(h.clients[id], h.log, Event(topic, payload));
      }
    }
  }

  lemma OfferStep(h: Hub, id: Id)
    requires HubInv(h)
    ensures HubInv(Next(h, Offer(id)))
  {
    hide ClientInv;
    if h.todo.Some? && id in h.todo.value && id in h.clients && h.log != [] && !Busy(h) {
      OfferInv(h.clients[id], h.log);
      OneClientInv(h, id, Offered(h.clients[id], h.log[|h.log| - 1], |h.log| - 1), Some(h.todo.value - {id}));
    }
  }

  lemma EvictStep(h: Hub, id: Id)
    requires HubInv(h)
    ensures HubInv(Next(h, Evict(id)))
  {
    hide ClientInv;
    if id in h.clients && h.clients[id].fate.Jammed? {
      var c := h.clients[id];
      EvictInv(c, h.log, Waiting(h, id));
      OneClientInv(h, id, c.(queue := Head(c.queue), fate := Evicted(c.fate.at)), h.todo);
    }
  }

  lemma MarkStep(h: Hub, id: Id)
    requires HubInv(h)
    ensures HubInv(Next(h, Mark(id)))
  {
    hide ClientInv;
    if id in h.clients && h.clients[id].fate.Evicted? {
      var c := h.clients[id];
      MarkInv(c, h.log, Waiting(h, id));
      OneClientInv(h, id, c.(queue := MarkedQueue(c.queue), fate := Marked(c.fate.at)), h.todo);
    }
  }

  lemma FinishInv(h: Hub)
    requires HubInv(h)
    ensures HubInv(Next(h, Finish))
  {
    hide ClientInv;
  }

  lemma DequeueStep(h: Hub, id: Id)
    requires HubInv(h)
    ensures HubInv(Next(h, Dequeue(id)))
  {
    hide ClientInv;
    if id in h.clients {
      DequeueInv(h.clients[id], h.log, Waiting(h, id));
      OneClientInv(h, id, h.clients[id].(queue := Get(h.clients[id].queue)), h.todo);
    }
  }

  lemma {:induction false} RunInv(h: Hub, steps: seq<Step>)
    requires HubInv(h)
    ensures HubInv(Run(h, steps))
    decreases |steps|
  {
    hide HubInv, Next;
    if steps != [] {
      StepInv(h, steps[0]);
      RunInv(Next(h, steps[0]), steps[1..]);
    }
  }

  lemma InitialInv(h: Hub)
    requires Initial(h)
    ensures HubInv(h)
  {
    forall id | id in h.clients ensures ClientInv(h.clients[id], h.log, false) {
      var q := h.clients[id].queue;
      assert h.log[0..0] == [] && Received(q) + [] == Received(q);
    }
  }

  // ------------------------------------------------------------------------- theorems

  /** Gap-freedom: between two publishes, what a client on the list has dequeued and what is
    queued for it are exactly what it had before it joined and the forwarded events since,
    in order; during a publish at most the event in progress is missing. */
  lemma GapFree(h: Hub, steps: seq<Step>, id: Id)
    requires Initial(h) && id in Run(h, steps).registered
    ensures var g := Run(h, steps);
            && id in g.clients && g.clients[id].joined <= |g.log|
            && (g.clients[id].fate.In? && !Waiting(g, id) ==>
                  Received(g.clients[id].queue) == g.clients[id].base + g.log[g.clients[id].joined..])
            && (g.clients[id].fate.In? && Waiting(g, id) ==>
                  g.clients[id].joined < |g.log|
                  && Received(g.clients[id].queue) + [g.log[|g.log| - 1]]
                     == g.clients[id].base + g.log[g.clients[id].joined..])
            && (g.todo.None? ==> g.clients[id].fate.In? && !Waiting(g, id))
  {
    InitialInv(h);
    RunInv(h, steps);
    var g := Run(h, steps);
    var c := g.clients[id];
    if c.fate.In? && Waiting(g, id) {
      LastMissing(c, g.log);
    }
  }

  lemma LastMissing(c: Client, log: seq<Item>)
    requires log != [] && c.joined <= |log| - 1
    ensures Due(c, log, |log| - 1) + [log[|log| - 1]] == c.base + log[c.joined..]
  {
    assert log[c.joined..] == log[c.joined..|log| - 1] + [log[|log| - 1]];
  }

  /** A client that overflowed got the events up to the one that met its full queue, at most one
    of them dropped, and then the marker, wherever its own dequeues fell between the hub's
    steps. */
  lemma OverflowIsFinal(h: Hub, steps: seq<Step>, id: Id)
    requires Initial(h) && id in Run(h, steps).clients && Run(h, steps).clients[id].fate.Marked?
    ensures var g := Run(h, steps);
            var c, got := g.clients[id], Received(g.clients[id].queue);
            && c.joined <= c.fate.at < |g.log| && got != [] && got[|got| - 1] == Overflow
            && MissesAtMostOne(got[..|got| - 1], c.base + g.log[c.joined..c.fate.at])
  {
    InitialInv(h);
    RunInv(h, steps);
  }

  /** The retry of the marker never happens: the queue is not full when the marker comes. */
  lemma RetryNeverNeeded(h: Hub, steps: seq<Step>, id: Id)
    requires Initial(h) && id in Run(h, steps).clients && Run(h, steps).clients[id].fate.Evicted?
    ensures !Full(Run(h, steps).clients[id].queue)
  {
    InitialInv(h);
    RunInv(h, steps);
  }

  /** `base` and `joined` are those of the last time the client came onto the list. */
  lemma SinceJoined(h: Hub, step: Step, id: Id)
    requires id in h.clients
    ensures var g := Next(h, step);
            && id in g.clients
            && if step == Add(id) && h.todo.None? && id !in h.registered
               then g.clients[id].base == Received(h.clients[id].queue) && g.clients[id].joined == |h.log|
               else g.clients[id].base == h.clients[id].base && g.clients[id].joined == h.clients[id].joined
  {
    hide Busy;
  }

  /** A client that is off the list receives nothing more until it is added again. */
  lemma OffStep(h: Hub, step: Step, id: Id)
    requires HubInv(h) && id in h.clients && id !in h.registered && step != Add(id)
    ensures var g := Next(h, step);
            && id in g.clients && id !in g.registered
            && Received(g.clients[id].queue) == Received(h.clients[id].queue)
  {
    DequeueKeeps(h.clients[id].queue);
    hide ClientInv, Received, Get, Head, MarkedQueue, Offered, Join;
  }

  predicate Rejoins(steps: seq<Step>, id: Id) { exists i | 0 <= i < |steps| :: steps[i] == Add(id) }

  lemma {:induction false} StaysAway(h: Hub, steps: seq<Step>, id: Id)
    requires HubInv(h) && id in h.clients && id !in h.registered && !Rejoins(steps, id)
    ensures var g := Run(h, steps);
            && id in g.clients && id !in g.registered
            && Received(g.clients[id].queue) == Received(h.clients[id].queue)
    decreases |steps|
  {
    if steps != [] {
      assert steps[0] != Add(id);
      OffStep(h, steps[0], id);
      StepInv(h, steps[0]);
      assert forall i | 0 <= i < |steps| - 1 :: steps[1..][i] == steps[i + 1];
      StaysAway(Next(h, steps[0]), steps[1..], id);
    }
  }

  /** Without a dequeue in between, offering an event to one client is `Put`. */
  lemma PutUninterrupted(c: Client, x: Item, now: nat)
    requires Fits(c.queue) && c.fate.In?
    ensures var d := Offered(c, x, now);
            && (d.fate.In? ==> Put(c.queue, x) == (d.queue, true))
            && (d.fate.Jammed? ==> Put(c.queue, x) == (MarkedQueue(Head(d.queue)), false))
  {
  }

  // ----------------------------------------------------------------------- the objects

  class ClientQueue {
    const maxSize: int
    var items: seq<Item>
    ghost var taken: seq<Item>

    ghost function View(): Queue
      reads this
    {
      Queue(maxSize, items, taken)
    }

    predicate Valid()
      reads this
    {
      maxSize <= 0 || |items| <= maxSize
    }

    constructor (maxSize: int)
      ensures Valid() && View() == Queue(maxSize, [], [])
    {
      this.maxSize, items, taken := maxSize, [], [];
    }

    /** `put_nowait`; false is `queue.Full`. */
    method PutNowait(x: Item) returns (ok: bool)
      requires Valid()
      modifies `items
      ensures Valid()
      ensures ok <==> !Full(old(View()))
      ensures items == if ok then old(items) + [x] else old(items)
    {
      if 0 < maxSize <= |items| { return false; }
      items := items + [x];
      return true;
    }

    /** `get_nowait` by the client. */
    method GetNowait() returns (x: Option<Item>)
      requires Valid()
      modifies this
      ensures Valid()
      ensures View() == Get(old(View()))
      ensures x == if old(items) == [] then None else Some(old(items)[0])
    {
      if items == [] { return None; }
      x := Some(items[0]);
      taken := taken + [items[0]];
      items := items[1..];
    }

    /** `get_nowait` by the hub, which discards what it gets. */
    method DropOldest()
      requires Valid()
      modifies `items
      ensures Valid()
      ensures items == if old(items) == [] then [] else old(items)[1..]
    {
      if items != [] { items := items[1..]; }
    }
  }

  class SSEHub {
    var clients: set<ClientQueue>

    constructor ()
      ensures clients == {}
    {
      clients := {};
    }

    method AddClient(q: ClientQueue)
      modifies this
      ensures clients == old(clients) + {q}
    {
      clients := clients + {q};
    }

    method RemoveClient(q: ClientQueue)
      modifies this
      ensures clients == old(clients) - {q}
    {
      clients := clients - {q};
    }

    /** `_on_event`: every registered queue gets the event or overflows, and the overflowed ones
      leave the list. */
    method OnEvent(topic: string, payload: string)
      requires forall q | q in clients :: q.Valid()
      modifies this, clients`items
      ensures forall q | q in old(clients) :: q.Valid()
      ensures topic !in FORWARD_TOPICS ==>
                clients == old(clients) && forall q | q in old(clients) :: q.View() == old(q.View())
      ensures topic in FORWARD_TOPICS ==>
                && (forall q | q in old(clients) :: q.View() == Put(old(q.View()), Event(topic, payload)).0)
                && clients == set q | q in old(clients) && !Full(old(q.View()))
    {
      if topic !in FORWARD_TOPICS { return; }
      var x := Event(topic, payload);
      var dead: set<ClientQueue> := {};
      var todo := clients;
      while todo != {}
        invariant clients == old(clients) && todo <= clients && forall q | q in clients :: q.Valid()
        invariant forall q | q in todo :: q.View() == old(q.View())
        invariant forall q | q in clients - todo :: q.View() == Put(old(q.View()), x).0
        invariant dead == set q | q in clients - todo && Full(old(q.View()))
        decreases todo
      {
        var q :| q in todo;
        todo := todo - {q};
        var ok := q.PutNowait(x);
        if !ok {
          q.DropOldest();
          ok := q.PutNowait(Overflow);
          // the head just left, so a second retry is never needed
          assert ok;
          dead := dead + {q};
        }
      }
      clients := clients - dead;
    }
  }
}
