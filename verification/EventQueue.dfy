/** The bounded event queue shared with the framework, and the backlog of batches that did not fit. */
module EventQueue {
  import opened Events
  import opened SensorTable
  import opened Sequences
  import opened Wrappers

  /** Events still to be written, with the wake-up count of the whole batch they came from. */
  datatype Batch = Batch(events: seq<Event>, wakeups: nat)

  /** Where the pending-writes thread is: holding no chunk, in its unlocked blocking write of the first
      `n` events of the front batch, or past it but not yet back under the mutex. */
  datatype Writer = Idle | Blocking(n: nat) | Delivered(n: nat) | Failed(n: nat)

  /** An event whose fate is settled: it went into the queue, or its write timed out. */
  datatype Outcome = Outcome(event: Event, delivered: bool)

  /** The queue and, from `posted` on, the history since the last initialisation. `accepted` are the
      posted events that were not dropped for want of room in the backlog; `settled` are those the
      proxy has finished with; `written` went into the queue; `received` were read by the framework. */
  datatype Queue = Queue(
    capacity: nat,
    maxPending: nat,
    fmq: seq<Event>,
    backlog: seq<Batch>,
    size: nat,
    mostObserved: nat,
    writer: Writer,
    posted: seq<Event>,
    accepted: seq<Event>,
    settled: seq<Outcome>,
    written: seq<Event>,
    received: seq<Event>)

  function Flatten(backlog: seq<Batch>): seq<Event> {
    if backlog == [] then [] else Flatten(Front(backlog)) + Last(backlog).events
  }

  function TotalLength(backlog: seq<Batch>): nat {
    if backlog == [] then 0 else TotalLength(Front(backlog)) + |Last(backlog).events|
  }

  function SettledEvents(outcomes: seq<Outcome>): seq<Event> {
    if outcomes == [] then [] else SettledEvents(Front(outcomes)) + [Last(outcomes).event]
  }

  function DeliveredEvents(outcomes: seq<Outcome>): seq<Event> {
    if outcomes == [] then []
    else DeliveredEvents(Front(outcomes)) + if Last(outcomes).delivered then [Last(outcomes).event] else []
  }

  function Outcomes(events: seq<Event>, delivered: bool): seq<Outcome> {
    seq(|events|, i requires 0 <= i < |events| => Outcome(events[i], delivered))
  }

  function NewQueue(capacity: nat, maxPending: nat, mostObserved: nat): Queue {
    Queue(capacity, maxPending, [], [], 0, mostObserved, Idle, [], [], [], [], [])
  }

  // ---- Critical sections ------------------------------------------------------------------------

  /** How many events a post writes at once: none while a backlog exists or when the write fails. */
  function NumToWrite(q: Queue, events: seq<Event>, writeOk: bool): nat
    requires |q.fmq| <= q.capacity
  {
    if q.backlog == [] && writeOk then Min(|events|, q.capacity - |q.fmq|) else 0
  }

  function WriteDirect(q: Queue, direct: seq<Event>): Queue {
    q.(fmq := q.fmq + direct, written := q.written + direct, settled := q.settled + Outcomes(direct, true))
  }

  /** What a post does not write joins the backlog if there is something and there is room for all of it. */
  predicate Fits(q: Queue, left: seq<Event>) {
    left != [] && q.size + |left| <= q.maxPending
  }

  function Store(q: Queue, direct: seq<Event>, left: seq<Event>, wakeups: nat): Queue {
    if Fits(q, left) then
      q.(backlog := q.backlog + [Batch(left, wakeups)],
         size := q.size + |left|,
         mostObserved := Max(q.mostObserved, q.size + |left|),
         posted := q.posted + (direct + left),
         accepted := q.accepted + (direct + left))
    else
      q.(posted := q.posted + (direct + left), accepted := q.accepted + direct)
  }

  /** A post under the event-queue mutex. */
  function Post(q: Queue, events: seq<Event>, wakeups: nat, writeOk: bool): Queue
    requires |q.fmq| <= q.capacity
  {
    var n := NumToWrite(q, events, writeOk);
    Store(WriteDirect(q, events[..n]), events[..n], events[n..], wakeups)
  }

  /** The events a post loses because the backlog has no room for them. */
  function Dropped(q: Queue, events: seq<Event>, writeOk: bool): seq<Event>
    requires |q.fmq| <= q.capacity
  {
    var left := events[NumToWrite(q, events, writeOk)..];
    if Fits(q, left) then [] else left
  }

  /** A post leaves no event unplaced: it writes a head of its batch, nothing behind a backlog or when the
      write fails, and otherwise all of it or as much as fills the queue. The tail joins the backlog, with
      the count of the whole batch, if there is room for all of it, and is dropped otherwise. */
  lemma PostPlacesEverything(q: Queue, events: seq<Event>, wakeups: nat, writeOk: bool)
    requires |q.fmq| <= q.capacity
    ensures var q' := Post(q, events, wakeups, writeOk);
            var n := |q'.fmq| - |q.fmq|;
            && 0 <= n <= |events| && q'.fmq == q.fmq + events[..n] && |q'.fmq| <= q.capacity
            && (q.backlog != [] || !writeOk ==> n == 0)
            && (q.backlog == [] && writeOk ==> n == |events| || |q'.fmq| == q.capacity)
            && q'.posted == q.posted + events && q'.written == q.written + events[..n]
            && q'.capacity == q.capacity && q'.writer == q.writer && q'.received == q.received
            && if n < |events| && q.size + |events| - n <= q.maxPending
               then && q'.backlog == q.backlog + [Batch(events[n..], wakeups)]
                    && q'.size == q.size + |events| - n
                    && q'.mostObserved == (if q.mostObserved <= q'.size then q'.size else q.mostObserved)
                    && q'.accepted == q.accepted + events && Dropped(q, events, writeOk) == []
               else && q'.backlog == q.backlog && q'.size == q.size && q'.mostObserved == q.mostObserved
                    && q'.accepted == q.accepted + events[..n] && Dropped(q, events, writeOk) == events[n..]
  {
    var n := NumToWrite(q, events, writeOk);
    assert events[..n] + events[n..] == events;
  }

  /** The pending-writes thread picks a chunk and releases the mutex. */
  function BeginWrite(q: Queue): Queue
    requires q.writer == Idle && q.backlog != []
  {
    q.(writer := Blocking(Min(|q.backlog[0].events|, q.capacity)))
  }

  /** The chunk in flight. */
  function Chunk(q: Queue): seq<Event>
    requires q.writer != Idle && q.backlog != [] && q.writer.n <= |q.backlog[0].events|
  {
    q.backlog[0].events[..q.writer.n]
  }

  /** The unlocked blocking write finds room for the whole chunk. */
  function Deliver(q: Queue): Queue
    requires q.writer.Blocking? && q.backlog != [] && q.writer.n <= |q.backlog[0].events|
  {
    q.(fmq := q.fmq + Chunk(q), written := q.written + Chunk(q), writer := Delivered(q.writer.n))
  }

  /** The unlocked blocking write times out. */
  function Fail(q: Queue): Queue
    requires q.writer.Blocking?
  {
    q.(writer := Failed(q.writer.n))
  }

  /** What the failure path takes off the wake-lock count for the chunk that timed out. */
  function FailedWakeups(q: Queue, sensors: Sensors): nat
    requires q.writer != Idle && q.backlog != []
    requires q.writer.n == Min(|q.backlog[0].events|, q.capacity)
  {
    if q.backlog[0].wakeups == 0 then 0
    else if |q.backlog[0].events| > q.capacity then Wakeups(q.backlog[0].events[..q.capacity], sensors)
    else q.backlog[0].wakeups
  }

  /** Back under the mutex, the thread drops the chunk from the backlog. */
  function EndWrite(q: Queue): Queue
    requires (q.writer.Delivered? || q.writer.Failed?) && q.backlog != []
    requires q.writer.n == Min(|q.backlog[0].events|, q.capacity) <= q.size
  {
    var front := q.backlog[0];
    q.(writer := Idle,
       size := q.size - q.writer.n,
       settled := q.settled + Outcomes(Chunk(q), q.writer.Delivered?),
       backlog := if |front.events| > q.capacity
                  then [Batch(front.events[q.capacity..], front.wakeups)] + q.backlog[1..]
                  else q.backlog[1..])
  }

  /** The framework takes `n` events. */
  function Read(q: Queue, n: nat): Queue
    requires n <= |q.fmq|
  {
    q.(fmq := q.fmq[n..], received := q.received + q.fmq[..n])
  }

  /** Stopping the threads empties the queue, so that a blocked writer can finish. */
  function Discard(q: Queue): Queue {
    q.(fmq := [])
  }

  // ---- What every section keeps -------------------------------------------------------------------

  ghost predicate Accounted(q: Queue) {
    && |q.fmq| <= q.capacity
    && q.size == TotalLength(q.backlog)
    && q.size <= q.maxPending
    && q.size <= q.mostObserved
    && (forall i | 0 <= i < |q.backlog| :: q.backlog[i].events != [])
    && (q.writer != Idle ==> q.backlog != [] && q.writer.n == Min(|q.backlog[0].events|, q.capacity))
  }

  /** What is in the queue already but not yet off the backlog. */
  ghost function InFlight(q: Queue): seq<Event>
    requires Accounted(q)
  {
    if q.writer.Delivered? then Chunk(q) else []
  }

  ghost predicate InOrder(q: Queue)
    requires Accounted(q)
  {
    && q.accepted == SettledEvents(q.settled) + Flatten(q.backlog)
    && q.written == DeliveredEvents(q.settled) + InFlight(q)
    && IsSubsequence(q.accepted, q.posted)
    && IsSubsequence(q.received + q.fmq, q.written)
  }

  ghost predicate Valid(q: Queue) {
    Accounted(q) && InOrder(q)
  }

  lemma {:induction false} FlattenFront(backlog: seq<Batch>)
    requires backlog != []
    ensures Flatten(backlog) == backlog[0].events + Flatten(backlog[1..])
    ensures TotalLength(backlog) == |backlog[0].events| + TotalLength(backlog[1..])
  {
    if |backlog| > 1 {
      FlattenFront(Front(backlog));
      assert Front(backlog)[1..] == Front(backlog[1..]);
    }
  }

  lemma {:induction false} OutcomesConcat(a: seq<Outcome>, b: seq<Outcome>)
    ensures SettledEvents(a + b) == SettledEvents(a) + SettledEvents(b)
    ensures DeliveredEvents(a + b) == DeliveredEvents(a) + DeliveredEvents(b)
  {
    if b == [] {
      assert a + b == a;
    } else {
      OutcomesConcat(a, Front(b));
      assert Front(a + b) == a + Front(b);
    }
  }

  lemma {:induction false} OutcomesProject(events: seq<Event>, delivered: bool)
    ensures SettledEvents(Outcomes(events, delivered)) == events
    ensures DeliveredEvents(Outcomes(events, delivered)) == if delivered then events else []
  {
    if events != [] {
      var outcomes := Outcomes(events, delivered);
      OutcomesProject(Front(events), delivered);
      assert Front(outcomes) == Outcomes(Front(events), delivered);
      assert Last(outcomes) == Outcome(Last(events), delivered);
      assert Front(events) + [Last(events)] == events;
    }
  }

  /** Settling more events extends both projections. */
  lemma Settle(settled: seq<Outcome>, events: seq<Event>, delivered: bool)
    ensures SettledEvents(settled + Outcomes(events, delivered)) == SettledEvents(settled) + events
    ensures DeliveredEvents(settled + Outcomes(events, delivered))
            == DeliveredEvents(settled) + if delivered then events else []
  {
    OutcomesConcat(settled, Outcomes(events, delivered));
    OutcomesProject(events, delivered);
  }

  lemma {:induction false} DeliveredIsSubsequence(settled: seq<Outcome>)
    ensures IsSubsequence(DeliveredEvents(settled), SettledEvents(settled))
  {
    if settled != [] {
      DeliveredIsSubsequence(Front(settled));
      var x := Last(settled).event;
      if Last(settled).delivered {
        AppendBoth(DeliveredEvents(Front(settled)), SettledEvents(Front(settled)), [x]);
      } else {
        Widen(DeliveredEvents(Front(settled)), SettledEvents(Front(settled)), x);
        assert DeliveredEvents(settled) == DeliveredEvents(Front(settled));
      }
    }
  }

  lemma {:induction false} FlattenPush(backlog: seq<Batch>, batch: Batch)
    ensures Flatten(backlog + [batch]) == Flatten(backlog) + batch.events
    ensures TotalLength(backlog + [batch]) == TotalLength(backlog) + |batch.events|
  {
    assert Front(backlog + [batch]) == backlog;
  }

  lemma WriteDirectKeepsAccounts(q: Queue, direct: seq<Event>)
    requires Accounted(q) && |q.fmq| + |direct| <= q.capacity
    ensures Accounted(WriteDirect(q, direct))
  {
  }

  lemma StoreKeepsAccounts(q: Queue, direct: seq<Event>, left: seq<Event>, wakeups: nat)
    requires Accounted(q)
    ensures Accounted(Store(q, direct, left, wakeups))
  {
    var q' := Store(q, direct, left, wakeups);
    FlattenPush(q.backlog, Batch(left, wakeups));
    assert forall i | 0 <= i < |q'.backlog| ::
        q'.backlog[i] == if i < |q.backlog| then q.backlog[i] else Batch(left, wakeups);
  }

  lemma PostKeepsAccounts(q: Queue, events: seq<Event>, wakeups: nat, writeOk: bool)
    requires Accounted(q)
    ensures Accounted(Post(q, events, wakeups, writeOk))
  {
    var n := NumToWrite(q, events, writeOk);
    WriteDirectKeepsAccounts(q, events[..n]);
    StoreKeepsAccounts(WriteDirect(q, events[..n]), events[..n], events[n..], wakeups);
  }

  lemma PostSettles(q: Queue, direct: seq<Event>, left: seq<Event>, wakeups: nat)
    requires q.accepted == SettledEvents(q.settled) + Flatten(q.backlog)
    requires q.backlog == [] || direct == []
    ensures var q' := Store(WriteDirect(q, direct), direct, left, wakeups);
            q'.accepted == SettledEvents(q'.settled) + Flatten(q'.backlog)
  {
    Settle(q.settled, direct, true);
    Overtake(SettledEvents(q.settled), Flatten(q.backlog), direct, left);
    FlattenPush(q.backlog, Batch(left, wakeups));
  }

  lemma PostWrites(q: Queue, direct: seq<Event>, left: seq<Event>, wakeups: nat)
    requires Accounted(q) && (q.backlog == [] || direct == [])
    requires q.written == DeliveredEvents(q.settled) + InFlight(q)
    requires Accounted(Store(WriteDirect(q, direct), direct, left, wakeups))
    ensures var q' := Store(WriteDirect(q, direct), direct, left, wakeups);
            q'.written == DeliveredEvents(q'.settled) + InFlight(q')
  {
    Settle(q.settled, direct, true);
    var q' := Store(WriteDirect(q, direct), direct, left, wakeups);
    assert DeliveredEvents(q'.settled) == DeliveredEvents(q.settled) + direct;
    Overtake(DeliveredEvents(q.settled), InFlight(q), direct, []);
    assert InFlight(q') == InFlight(q) by {
      assert q.writer.Delivered? ==> q'.backlog[0] == q.backlog[0];
    }
  }

  lemma PostReceives(q: Queue, direct: seq<Event>)
    requires IsSubsequence(q.received + q.fmq, q.written)
    ensures IsSubsequence(q.received + WriteDirect(q, direct).fmq, WriteDirect(q, direct).written)
  {
    AppendBoth(q.received + q.fmq, q.written, direct);
    Associate(q.received, q.fmq, direct);
  }

  lemma PostKeepsOrder(q: Queue, events: seq<Event>, wakeups: nat, writeOk: bool)
    requires Valid(q)
    ensures Valid(Post(q, events, wakeups, writeOk))
  {
    var n := NumToWrite(q, events, writeOk);
    PostKeepsAccounts(q, events, wakeups, writeOk);
    PostSettles(q, events[..n], events[n..], wakeups);
    AppendSome(q.accepted, q.posted, events[..n], events[n..]);
    PostWrites(q, events[..n], events[n..], wakeups);
    PostReceives(q, events[..n]);
  }

  lemma BeginWriteKeepsOrder(q: Queue)
    requires Valid(q) && q.writer == Idle && q.backlog != []
    ensures Valid(BeginWrite(q))
  {
  }

  lemma DeliverKeepsOrder(q: Queue)
    requires Valid(q) && q.writer.Blocking? && |q.fmq| + q.writer.n <= q.capacity
    ensures Valid(Deliver(q))
  {
    AppendBoth(q.received + q.fmq, q.written, Chunk(q));
    Associate(q.received, q.fmq, Chunk(q));
    assert q.written == DeliveredEvents(q.settled);
  }

  lemma FailKeepsOrder(q: Queue)
    requires Valid(q) && q.writer.Blocking?
    ensures Valid(Fail(q))
  {
  }

  lemma EndWriteKeepsAccounts(q: Queue)
    requires Accounted(q) && (q.writer.Delivered? || q.writer.Failed?)
    ensures q.writer.n <= q.size
    ensures Accounted(EndWrite(q))
  {
    FlattenFront(q.backlog);
    var q' := EndWrite(q);
    if |q.backlog[0].events| > q.capacity {
      FlattenFront(q'.backlog);
      assert q'.backlog[1..] == q.backlog[1..];
    }
  }

  /** Nothing is skipped or repeated at a chunk boundary. */
  lemma EndWriteDropsChunk(q: Queue)
    requires Accounted(q) && (q.writer.Delivered? || q.writer.Failed?)
    requires q.writer.n <= q.size
    ensures Flatten(q.backlog) == Chunk(q) + Flatten(EndWrite(q).backlog)
  {
    var events, rest, backlog' := q.backlog[0].events, q.backlog[1..], EndWrite(q).backlog;
    FlattenFront(q.backlog);
    if |events| > q.capacity {
      FlattenFront(backlog');
      assert backlog'[1..] == rest;
      assert events == Chunk(q) + events[q.capacity..];
      Associate(Chunk(q), events[q.capacity..], Flatten(rest));
    } else {
      assert Chunk(q) == events;
    }
  }

  lemma EndWriteKeepsOrder(q: Queue)
    requires Valid(q) && (q.writer.Delivered? || q.writer.Failed?)
    ensures q.writer.n <= q.size
    ensures Valid(EndWrite(q))
  {
    EndWriteKeepsAccounts(q);
    EndWriteDropsChunk(q);
    var q' := EndWrite(q);
    Settle(q.settled, Chunk(q), q.writer.Delivered?);
    Associate(SettledEvents(q.settled), Chunk(q), Flatten(q'.backlog));
    assert DeliveredEvents(q'.settled) == q.written;
  }

  lemma ReadersKeepOrder(q: Queue, n: nat)
    requires Valid(q)
    ensures n <= |q.fmq| ==> Valid(Read(q, n))
    ensures Valid(Discard(q))
  {
    if n <= |q.fmq| {
      assert q.received + q.fmq == Read(q, n).received + Read(q, n).fmq;
    }
    DropSuffix(q.received, q.written, q.fmq);
    assert q.received + [] == q.received;
  }

  lemma WrittenInAcceptedOrder(q: Queue)
    requires Accounted(q)
    requires q.accepted == SettledEvents(q.settled) + Flatten(q.backlog)
    requires q.written == DeliveredEvents(q.settled) + InFlight(q)
    ensures IsSubsequence(q.written, q.accepted)
  {
    DeliveredIsSubsequence(q.settled);
    var delivered, settled := DeliveredEvents(q.settled), SettledEvents(q.settled);
    if q.writer.Delivered? {
      var events := q.backlog[0].events;
      FlattenFront(q.backlog);
      assert events == Chunk(q) + events[q.writer.n..];
      Associate(Chunk(q), events[q.writer.n..], Flatten(q.backlog[1..]));
      AppendSome(delivered, settled, Chunk(q), events[q.writer.n..] + Flatten(q.backlog[1..]));
    } else {
      AppendRight(delivered, settled, Flatten(q.backlog));
      assert q.written == delivered;
    }
  }

  /** What the framework has read is an order-preserving part of what was posted, and so is what is
      still waiting for it. */
  lemma ReceivedInPostedOrder(q: Queue)
    requires Valid(q)
    ensures IsSubsequence(q.received + q.fmq, q.posted)
    ensures IsSubsequence(q.received, q.posted)
    ensures IsSubsequence(q.written, q.accepted)
  {
    WrittenInAcceptedOrder(q);
    Transitive(q.written, q.accepted, q.posted);
    Transitive(q.received + q.fmq, q.written, q.posted);
    DropSuffix(q.received, q.posted, q.fmq);
  }

  /** Single writer: while the pending-writes thread is between its two critical sections, no post
      touches the queue. */
  lemma PostLeavesQueueAlone(q: Queue, events: seq<Event>, wakeups: nat, writeOk: bool)
    requires Accounted(q) && q.writer != Idle
    ensures var q' := Post(q, events, wakeups, writeOk);
            && q'.fmq == q.fmq && q'.written == q.written
            && q'.writer == q.writer && q'.backlog != [] && Chunk(q') == Chunk(q)
  {
    assert NumToWrite(q, events, writeOk) == 0;
    assert q.written + events[..0] == q.written && q.fmq + events[..0] == q.fmq;
  }
}
