/** Where every count of the wake lock comes from: a conservation law over runs of the proxy. */
module Conservation {
  import opened Wrappers
  import opened Events
  import opened EventQueue
  import opened Holders
  import opened ProxyRuns
  import opened SensorTable
  import opened Sequences
  import W = WakeLock

  // ---- The queue's own law ---------------------------------------------------------------------------

  /** Backlog events whose write has not been decided yet. */
  function Waiting(q: Queue): seq<Event>
    requires q.writer != Idle ==> q.writer.n <= |Flatten(q.backlog)|
  {
    if q.writer.Delivered? || q.writer.Failed? then Flatten(q.backlog)[q.writer.n..] else Flatten(q.backlog)
  }

  lemma ChunkIsPrefix(q: Queue)
    requires Accounted(q)
    ensures q.writer != Idle ==>
              q.writer.n <= |Flatten(q.backlog)| && Flatten(q.backlog)[..q.writer.n] == Chunk(q)
  {
    if q.writer != Idle {
      FlattenFront(q.backlog);
    }
  }

  /** Wake-up events that are in the queue or still on their way into it. */
  function Carried(q: Queue, sensors: Sensors): nat
    requires Accounted(q)
  {
    ChunkIsPrefix(q);
    Wakeups(q.fmq, sensors) + Wakeups(Waiting(q), sensors)
  }

  /** Each stored count covers the wake-up events still in its entry. */
  ghost predicate Honest(q: Queue, sensors: Sensors) {
    forall i | 0 <= i < |q.backlog| :: Wakeups(q.backlog[i].events, sensors) <= q.backlog[i].wakeups
  }

  /** The stored count is that of the events still in the entry, as it is until some of the batch's wake-up
      events have been written. */
  predicate OwnCount(batch: Batch, sensors: Sensors) {
    batch.wakeups == Wakeups(batch.events, sensors)
  }

  lemma StoreCarries(q: Queue, direct: seq<Event>, left: seq<Event>, wakeups: nat, sensors: Sensors)
    requires Accounted(q) && (q.writer != Idle ==> q.writer.n <= |Flatten(q.backlog)|)
    ensures var q' := Store(WriteDirect(q, direct), direct, left, wakeups);
            && (q'.writer != Idle ==> q'.writer.n <= |Flatten(q'.backlog)|)
            && Wakeups(q'.fmq, sensors) == Wakeups(q.fmq, sensors) + Wakeups(direct, sensors)
            && Waiting(q') == if Fits(q, left) then Waiting(q) + left else Waiting(q)
  {
    WakeupsConcat(q.fmq, direct, sensors);
    FlattenPush(q.backlog, Batch(left, wakeups));
    if q.writer != Idle {
      DropFromConcat(Flatten(q.backlog), left, q.writer.n);
    }
  }

  lemma PostCarries(q: Queue, events: seq<Event>, wakeups: nat, writeOk: bool, sensors: Sensors)
    requires Accounted(q)
    requires Accounted(Post(q, events, wakeups, writeOk))
    ensures Carried(Post(q, events, wakeups, writeOk), sensors) + Wakeups(Dropped(q, events, writeOk), sensors)
            == Carried(q, sensors) + Wakeups(events, sensors)
  {
    var n := NumToWrite(q, events, writeOk);
    ChunkIsPrefix(q);
    StoreCarries(q, events[..n], events[n..], wakeups, sensors);
    WakeupsSplit(events, n, sensors);
    WakeupsConcat(Waiting(q), events[n..], sensors);
  }

  lemma PostedGrows(q: Queue, events: seq<Event>, wakeups: nat, writeOk: bool)
    requires |q.fmq| <= q.capacity
    ensures Post(q, events, wakeups, writeOk).posted == q.posted + events
  {
    var n := NumToWrite(q, events, writeOk);
    assert events[..n] + events[n..] == events;
  }

  lemma PostHonest(q: Queue, events: seq<Event>, wakeups: nat, writeOk: bool, sensors: Sensors)
    requires Accounted(q) && Honest(q, sensors) && Wakeups(events, sensors) <= wakeups
    ensures Honest(Post(q, events, wakeups, writeOk), sensors)
  {
    WakeupsSplit(events, NumToWrite(q, events, writeOk), sensors);
  }

  lemma DeliverCarries(q: Queue, sensors: Sensors)
    requires Accounted(q) && q.writer.Blocking? && Accounted(Deliver(q))
    ensures Carried(Deliver(q), sensors) == Carried(q, sensors)
  {
    ChunkIsPrefix(q);
    WakeupsSplit(Flatten(q.backlog), q.writer.n, sensors);
    WakeupsConcat(q.fmq, Chunk(q), sensors);
  }

  lemma FailCarries(q: Queue, sensors: Sensors)
    requires Accounted(q) && q.writer.Blocking? && Accounted(Fail(q))
    ensures Carried(Fail(q), sensors) + Wakeups(Chunk(q), sensors) == Carried(q, sensors)
  {
    ChunkIsPrefix(q);
    WakeupsSplit(Flatten(q.backlog), q.writer.n, sensors);
  }

  lemma EndCarries(q: Queue, sensors: Sensors)
    requires Accounted(q) && (q.writer.Delivered? || q.writer.Failed?) && q.writer.n <= q.size
    requires Accounted(EndWrite(q))
    ensures Carried(EndWrite(q), sensors) == Carried(q, sensors)
  {
    EndWriteDropsChunk(q);
    ChunkIsPrefix(q);
    assert Waiting(q) == Flatten(EndWrite(q).backlog);
  }

  lemma EndHonest(q: Queue, sensors: Sensors)
    requires Accounted(q) && (q.writer.Delivered? || q.writer.Failed?) && q.writer.n <= q.size
    requires Honest(q, sensors)
    ensures Honest(EndWrite(q), sensors)
  {
    var front, q' := q.backlog[0], EndWrite(q);
    if |front.events| > q.capacity {
      WakeupsSplit(front.events, q.capacity, sensors);
      forall i | 0 <= i < |q'.backlog|
        ensures Wakeups(q'.backlog[i].events, sensors) <= q'.backlog[i].wakeups
      {
        if i > 0 {
          assert q'.backlog[i] == q.backlog[i];
        }
      }
    }
  }

  lemma ReadCarries(q: Queue, n: nat, sensors: Sensors)
    requires Accounted(q) && n <= |q.fmq| && Accounted(Read(q, n))
    ensures Carried(Read(q, n), sensors) + Wakeups(q.fmq[..n], sensors) == Carried(q, sensors)
  {
    WakeupsSplit(q.fmq, n, sensors);
    assert Waiting(Read(q, n)) == Waiting(q) by { ChunkIsPrefix(q); }
  }

  /** The stored count of the front entry covers the chunk in flight; what a timeout asks to take off is
      the chunk's own count exactly when the chunk is not the entry's last or the stored count is the
      count of what is left of the entry. */
  lemma FailureAsksForChunkIff(q: Queue, sensors: Sensors)
    requires Accounted(q) && q.writer != Idle && Honest(q, sensors)
    ensures FailedWakeups(q, sensors) == Wakeups(Chunk(q), sensors)
            <==> |q.backlog[0].events| > q.capacity || OwnCount(q.backlog[0], sensors)
    ensures FailedWakeups(q, sensors) >= Wakeups(Chunk(q), sensors)
    ensures FailedWakeups(q, sensors)
            == if |q.backlog[0].events| > q.capacity then Wakeups(Chunk(q), sensors) else q.backlog[0].wakeups
  {
    var front := q.backlog[0];
    assert Honest(q, sensors) && Wakeups(front.events, sensors) <= front.wakeups;
    if |front.events| > q.capacity {
      WakeupsSplit(front.events, q.capacity, sensors);
    } else {
      assert Chunk(q) == front.events;
    }
  }

  /** A queued remainder has its own count exactly if no wake-up event of its batch went into the queue. */
  lemma QueuedCountIsOwnIff(q: Queue, events: seq<Event>, writeOk: bool, sensors: Sensors)
    requires |q.fmq| <= q.capacity
    ensures var n := NumToWrite(q, events, writeOk);
            OwnCount(Batch(events[n..], Wakeups(events, sensors)), sensors) <==> Wakeups(events[..n], sensors) == 0
  {
    WakeupsSplit(events, NumToWrite(q, events, writeOk), sensors);
  }

  /** What is left of an entry after a chunk has its own count exactly if the entry had, and the chunk held
      no wake-up event. */
  lemma RestCountIsOwnIff(q: Queue, sensors: Sensors)
    requires Accounted(q) && Honest(q, sensors) && (q.writer.Delivered? || q.writer.Failed?) && q.writer.n <= q.size
    requires |q.backlog[0].events| > q.capacity
    ensures EndWrite(q).backlog != []
    ensures OwnCount(EndWrite(q).backlog[0], sensors)
            <==> OwnCount(q.backlog[0], sensors) && Wakeups(Chunk(q), sensors) == 0
  {
    assert Wakeups(q.backlog[0].events, sensors) <= q.backlog[0].wakeups;
    WakeupsSplit(q.backlog[0].events, q.capacity, sensors);
  }

  // ---- The proxy's law -------------------------------------------------------------------------------

  function Sum(counts: seq<nat>): nat {
    if counts == [] then 0 else counts[0] + Sum(counts[1..])
  }

  lemma {:induction false} SumAppend(counts: seq<nat>, n: nat)
    ensures Sum(counts + [n]) == Sum(counts) + n
  {
    if counts != [] {
      SumAppend(counts[1..], n);
      assert (counts + [n])[1..] == counts[1..] + [n];
    }
  }

  /** How many of the live scoped wake locks were created since `reset`, so that the count still has
      theirs. */
  function Fresh(holders: seq<int>, reset: int): nat {
    if holders == [] then 0 else Fresh(Front(holders), reset) + if reset <= Last(holders) then 1 else 0
  }

  lemma {:induction false} FreshConcat(a: seq<int>, b: seq<int>, reset: int)
    ensures Fresh(a + b, reset) == Fresh(a, reset) + Fresh(b, reset)
  {
    if b == [] {
      assert a + b == a;
    } else {
      FreshConcat(a, Front(b), reset);
      assert Front(a + b) == a + Front(b);
    }
  }

  lemma FreshWithout(holders: seq<int>, k: nat, reset: int)
    requires k < |holders|
    ensures Fresh(holders, reset) == Fresh(Without(holders, k), reset) + if reset <= holders[k] then 1 else 0
  {
    var one := [holders[k]];
    assert holders == holders[..k] + one + holders[k + 1..];
    FreshConcat(holders[..k] + one, holders[k + 1..], reset);
    FreshConcat(holders[..k], one, reset);
    FreshConcat(holders[..k], holders[k + 1..], reset);
    assert Front(one) == [];
  }

  lemma {:induction false} FreshOnlyFrom(holders: seq<int>, reset: int)
    requires forall k | 0 <= k < |holders| :: holders[k] < reset
    ensures Fresh(holders, reset) == 0
  {
    if holders != [] {
      FreshOnlyFrom(Front(holders), reset);
    }
  }

  function PostingWakeups(p: Proxy): nat {
    if p.posting.Some? then Wakeups(p.posting.value.events, p.sensors) else 0
  }

  /** Wake-up events on their way to the framework, or with it and not acknowledged for good. */
  function Outstanding(p: Proxy): nat
    requires Accounted(p.queue)
  {
    Carried(p.queue, p.sensors) + PostingWakeups(p) + p.unacked + Sum(p.acks)
  }

  /** Wake-up events in the chunk in flight, if there is one. */
  function ChunkWakeups(p: Proxy): nat {
    if WriterReady(p.queue) then Wakeups(Chunk(p.queue), p.sensors) else 0
  }

  /** What the count holds for nothing below: not for a live scoped wake lock, nor for an outstanding
      wake-up event, nor for one that an overflowing backlog has dropped since the last initialisation.
      It is what survived that initialisation. */
  function Surplus(p: Proxy): int
    requires Accounted(p.queue)
  {
    p.wake.refCount - Fresh(p.holders, p.wake.resetTime) - Outstanding(p) - p.lost
  }

  /** Posted wake-up events that are neither outstanding, dropped, acknowledged nor timed out. */
  function Untraced(p: Proxy): int
    requires Accounted(p.queue)
  {
    Wakeups(p.queue.posted, p.sensors) + PostingWakeups(p) - Outstanding(p) - p.lost - p.taken - p.failed
  }

  /** The count covers what it is for, with nothing promised about how much more there is. */
  ghost predicate Covered(p: Proxy)
    requires Accounted(p.queue)
  {
    && p.running && Timely(p) && W.HeldWhileCounted(p.wake)
    && Honest(p.queue, p.sensors)
    && (p.posting.Some? ==> p.posting.value.wakeups == Wakeups(p.posting.value.events, p.sensors))
    && Surplus(p) >= 0
  }

  ghost predicate Balanced(p: Proxy) {
    Valid(p.queue) && Covered(p)
  }

  ghost predicate KeepsBalance(p: Proxy, p': Proxy)
    requires Accounted(p.queue)
  {
    Balanced(p') && Surplus(p') == Surplus(p) && Untraced(p') == Untraced(p)
  }

  /** The steps that keep the balance: posters count honestly and hold a wake lock for wake-up events; the
      framework acknowledges only what it has read; a write timeout does not hit the last chunk of an
      entry whose stored count is stale, or hits it when the count is down to that chunk's; the whole lock
      times out only while live scoped wake locks are all that the count is for. Overflow is allowed. */
  predicate Disciplined(p: Proxy, s: Step)
    requires Enabled(p, s)
  {
    match s.action
    case PostCharge(events, wakeups, locked) => wakeups == Wakeups(events, p.sensors) && (wakeups > 0 ==> locked)
    case TimeOutChunk =>
      || |p.queue.backlog[0].events| > p.queue.capacity
      || OwnCount(p.queue.backlog[0], p.sensors)
      || p.wake.refCount == ChunkWakeups(p)
    case Acknowledge(count) => count <= p.unacked
    case CheckTimeout =>
      !W.DidTimeout(p.wake, s.now, p.timeout) || p.wake.refCount == Fresh(p.holders, p.wake.resetTime)
    case Stop => false
    case ThreadExit => false
    case Restart(_) => false
    case _ => true
  }

  predicate DisciplinedRun(p: Proxy, steps: seq<Step>)
    requires Feasible(p, steps)
    decreases |steps|
  {
    steps == [] || (Disciplined(p, steps[0]) && DisciplinedRun(Apply(p, steps[0]), steps[1..]))
  }

  lemma StartIsBalanced(capacity: nat, maxPending: nat, timeout: nat, sensors: Sensors, now: nat)
    ensures var p := Started(capacity, maxPending, timeout, sensors, now);
            Balanced(p) && Surplus(p) == 0 && Untraced(p) == 0
  {
  }

  /** A new initialisation starts with an empty queue of its capacity, no backlog and no acknowledgements, and
      with the count there was. */
  lemma RestartClears(p: Proxy, s: Step)
    requires Enabled(p, s) && s.action.Restart?
    ensures var p' := Apply(p, s);
            && p'.running && p'.queue.capacity == s.action.capacity && p'.queue.maxPending == p.queue.maxPending
            && p'.queue.fmq == [] && p'.queue.backlog == [] && p'.queue.size == 0 && p'.queue.writer == Idle
            && p'.queue.mostObserved == p.queue.mostObserved && p'.acks == []
            && p'.wake.refCount == p.wake.refCount && p'.wake.resetTime == s.now && p'.holders == p.holders
  {
  }

  /** A new initialisation is balanced again, whatever happened before: what survived of the count is the
      new surplus. A scoped wake lock of the very tick of the initialisation is the one thing that could
      spoil it, since it is not recognised as stale. */
  lemma RestartIsBalanced(p: Proxy, s: Step)
    requires Timely(p) && W.HeldWhileCounted(p.wake)
    requires Enabled(p, s) && s.action.Restart?
    ensures var p' := Apply(p, s);
            && Accounted(p'.queue) && Untraced(p') == 0
            && Surplus(p') == p.wake.refCount - Fresh(p.holders, s.now)
            && (Balanced(p') <==> Fresh(p.holders, s.now) <= p.wake.refCount)
  {
    RestartClears(p, s);
    TimelyStep(p, s);
    NewQueueIsEmpty(s.action.capacity, p.queue.maxPending, p.queue.mostObserved, p.sensors);
  }

  lemma NewQueueIsEmpty(capacity: nat, maxPending: nat, mostObserved: nat, sensors: Sensors)
    ensures var q := NewQueue(capacity, maxPending, mostObserved);
            Valid(q) && Honest(q, sensors) && Carried(q, sensors) == 0 && Wakeups(q.posted, sensors) == 0
  {
  }

  // ---- What each step does to the balance --------------------------------------------------------------

  /** A change of the count that the scoped wake locks account for. */
  lemma HoldersBalance(p: Proxy, p': Proxy)
    requires Accounted(p.queue) && Covered(p)
    requires p' == p.(clock := p'.clock, wake := p'.wake, holders := p'.holders)
    requires Timely(p') && W.HeldWhileCounted(p'.wake)
    requires p'.wake.refCount - Fresh(p'.holders, p'.wake.resetTime)
             == p.wake.refCount - Fresh(p.holders, p.wake.resetTime)
    ensures Covered(p') && Surplus(p') == Surplus(p) && Untraced(p') == Untraced(p)
  {
  }

  lemma LockStep(p: Proxy, s: Step)
    requires Timely(p) && W.HeldWhileCounted(p.wake) && p.running
    requires Enabled(p, s) && s.action.LockHolder?
    ensures var p' := Apply(p, s);
            && p' == p.(clock := s.now, wake := p'.wake, holders := p'.holders)
            && Timely(p') && W.HeldWhileCounted(p'.wake) && p'.wake.resetTime == p.wake.resetTime
            && p'.wake.refCount == p.wake.refCount + 1
            && Fresh(p'.holders, p.wake.resetTime) == Fresh(p.holders, p.wake.resetTime) + 1
  {
    assert Front(p.holders + [s.now]) == p.holders;
  }

  lemma LockStepBalanced(p: Proxy, s: Step)
    requires Balanced(p) && Enabled(p, s) && s.action.LockHolder?
    ensures KeepsBalance(p, Apply(p, s))
  {
    LockStep(p, s);
    HoldersBalance(p, Apply(p, s));
  }

  /** A holder from after the last reset takes exactly its one, and an earlier one nothing. */
  lemma HolderDecrement(w: W.WakeLock, start: int)
    requires 0 <= start && W.HeldWhileCounted(w)
    requires w.resetTime <= start ==> w.refCount > 0
    ensures var w' := W.Decrement(w, 1, start);
            && w'.refCount == w.refCount - (if w.resetTime <= start then 1 else 0)
            && w'.resetTime == w.resetTime && W.HeldWhileCounted(w')
  {
  }

  lemma DropStep(p: Proxy, s: Step)
    requires Timely(p) && W.HeldWhileCounted(p.wake) && p.running
    requires Fresh(p.holders, p.wake.resetTime) <= p.wake.refCount
    requires Enabled(p, s) && s.action.DropHolder?
    ensures var p' := Apply(p, s);
            var own := if p.wake.resetTime <= p.holders[s.action.k] then 1 else 0;
            && p' == p.(clock := s.now, wake := p'.wake, holders := p'.holders)
            && Timely(p') && W.HeldWhileCounted(p'.wake) && p'.wake.resetTime == p.wake.resetTime
            && p'.wake.refCount == p.wake.refCount - own
            && Fresh(p'.holders, p.wake.resetTime) == Fresh(p.holders, p.wake.resetTime) - own
  {
    var p', k := Apply(p, s), s.action.k;
    FreshWithout(p.holders, k, p.wake.resetTime);
    HolderDecrement(p.wake, p.holders[k]);
    assert forall i | 0 <= i < |p'.holders| :: p'.holders[i] == p.holders[if i < k then i else i + 1];
  }

  lemma DropStepBalanced(p: Proxy, s: Step)
    requires Balanced(p) && Enabled(p, s) && s.action.DropHolder?
    ensures KeepsBalance(p, Apply(p, s))
  {
    DropStep(p, s);
    HoldersBalance(p, Apply(p, s));
  }

  /** A charge and the batch it is for. */
  lemma ChargeMoves(p: Proxy, s: Step)
    requires Accounted(p.queue) && p.running && W.HeldWhileCounted(p.wake)
    requires Enabled(p, s) && s.action.PostCharge?
    ensures var p', charge := Apply(p, s), if s.action.locked then s.action.wakeups else 0;
            && p'.queue == p.queue && p'.running && W.HeldWhileCounted(p'.wake)
            && p'.wake.resetTime == p.wake.resetTime
            && Surplus(p') == Surplus(p) + charge - Wakeups(s.action.events, p.sensors)
            && Untraced(p') == Untraced(p)
  {
  }

  /** A charge keeps the balance exactly when the poster counts honestly and holds a lock for wake-ups. */
  lemma ChargeStepBalanced(p: Proxy, s: Step)
    requires Balanced(p) && Enabled(p, s) && s.action.PostCharge?
    ensures Disciplined(p, s) ==> KeepsBalance(p, Apply(p, s))
    ensures Balanced(Apply(p, s)) && Surplus(Apply(p, s)) == Surplus(p) ==> Disciplined(p, s)
  {
    ChargeMoves(p, s);
    TimelyStep(p, s);
  }

  /** Storing a batch moves its wake-up events, some of them to the dropped ones. */
  lemma StoreMoves(p: Proxy, s: Step)
    requires Accounted(p.queue) && Enabled(p, s) && s.action.PostStore?
    requires Accounted(Apply(p, s).queue)
    ensures Outstanding(Apply(p, s)) + Apply(p, s).lost == Outstanding(p) + p.lost
    ensures Wakeups(Apply(p, s).queue.posted, p.sensors) == Wakeups(p.queue.posted, p.sensors) + PostingWakeups(p)
  {
    var batch := p.posting.value;
    PostCarries(p.queue, batch.events, batch.wakeups, s.action.writeOk, p.sensors);
    PostedGrows(p.queue, batch.events, batch.wakeups, s.action.writeOk);
    WakeupsConcat(p.queue.posted, batch.events, p.sensors);
  }

  lemma StoreStepHonest(p: Proxy, s: Step)
    requires Accounted(p.queue) && Honest(p.queue, p.sensors) && Enabled(p, s) && s.action.PostStore?
    requires p.posting.value.wakeups == Wakeups(p.posting.value.events, p.sensors)
    ensures Honest(Apply(p, s).queue, p.sensors)
  {
    PostHonest(p.queue, p.posting.value.events, p.posting.value.wakeups, s.action.writeOk, p.sensors);
  }

  lemma StoreStepBalanced(p: Proxy, s: Step)
    requires Balanced(p) && Enabled(p, s) && s.action.PostStore?
    ensures KeepsBalance(p, Apply(p, s))
  {
    StepKeepsQueue(p, s);
    StoreStepHonest(p, s);
    StoreMoves(p, s);
    QueueBalance(p, Apply(p, s));
  }

  /** A step that leaves the wake lock alone and loses track of nothing. */
  lemma QueueBalance(p: Proxy, p': Proxy)
    requires Accounted(p.queue) && Covered(p) && Accounted(p'.queue)
    requires p'.running && p'.wake == p.wake && p'.holders == p.holders && p'.sensors == p.sensors
    requires p.clock <= p'.clock && p'.taken == p.taken && p'.failed == p.failed
    requires Honest(p'.queue, p.sensors)
    requires p'.posting.None? || p'.posting == p.posting
    requires Outstanding(p') + p'.lost == Outstanding(p) + p.lost
    requires Wakeups(p'.queue.posted, p.sensors) + PostingWakeups(p')
             == Wakeups(p.queue.posted, p.sensors) + PostingWakeups(p)
    ensures Covered(p') && Surplus(p') == Surplus(p) && Untraced(p') == Untraced(p)
  {
  }

  lemma WriterMoves(p: Proxy, s: Step)
    requires Accounted(p.queue) && Honest(p.queue, p.sensors)
    requires Enabled(p, s) && (s.action.BeginWriting? || s.action.DeliverChunk? || s.action.EndWriting?)
    requires Accounted(Apply(p, s).queue)
    ensures Outstanding(Apply(p, s)) == Outstanding(p) && Honest(Apply(p, s).queue, p.sensors)
    ensures Apply(p, s).queue.posted == p.queue.posted
  {
    match s.action
    case DeliverChunk => DeliverCarries(p.queue, p.sensors);
    case EndWriting =>
      EndCarries(p.queue, p.sensors);
      EndHonest(p.queue, p.sensors);
    case _ =>
  }

  lemma WriterStepBalanced(p: Proxy, s: Step)
    requires Balanced(p) && Enabled(p, s)
    requires s.action.BeginWriting? || s.action.DeliverChunk? || s.action.EndWriting?
    ensures KeepsBalance(p, Apply(p, s))
  {
    StepKeepsQueue(p, s);
    WriterMoves(p, s);
    QueueBalance(p, Apply(p, s));
  }

  /** What a decrement by the proxy itself takes off, and that the lock stays held while it should. */
  lemma OwnDecrement(w: W.WakeLock, delta: nat)
    requires W.HeldWhileCounted(w)
    ensures var w' := W.Decrement(w, delta, W.NO_START);
            && w'.refCount == w.refCount - Min(w.refCount, delta)
            && w'.resetTime == w.resetTime && W.HeldWhileCounted(w')
  {
  }

  lemma TimeOutStep(p: Proxy, s: Step)
    requires Balanced(p) && Enabled(p, s) && s.action.TimeOutChunk?
    ensures var p', taken := Apply(p, s), Min(p.wake.refCount, FailedWakeups(p.queue, p.sensors));
            && Accounted(p'.queue) && Untraced(p') == Untraced(p)
            && ChunkWakeups(p) <= p.wake.refCount
            && p'.wake.refCount == p.wake.refCount - taken
            && Surplus(p') - Surplus(p) == ChunkWakeups(p) - taken
            && (Surplus(p') >= 0 ==> Balanced(p'))
  {
    FailKeepsOrder(p.queue);
    FailCarries(p.queue, p.sensors);
    OwnDecrement(p.wake, FailedWakeups(p.queue, p.sensors));
    var p' := Apply(p, s);
    assert p'.queue == Fail(p.queue) && p'.posting == p.posting && p'.acks == p.acks;
    assert p'.holders == p.holders && p'.lost == p.lost;
  }

  lemma TimeOutTakes(p: Proxy, s: Step)
    requires Accounted(p.queue) && Honest(p.queue, p.sensors) && ChunkWakeups(p) <= p.wake.refCount
    requires Enabled(p, s) && s.action.TimeOutChunk?
    ensures var taken := Min(p.wake.refCount, FailedWakeups(p.queue, p.sensors));
            taken >= ChunkWakeups(p) && (taken == ChunkWakeups(p) <==> Disciplined(p, s))
  {
    FailureAsksForChunkIff(p.queue, p.sensors);
  }

  /** A write timeout keeps the balance, and takes off the count exactly what the lost chunk had put there,
      if and only if the chunk is not its entry's last, or the entry's stored count is that of what is left
      of it, or the count is down to the chunk's own. It never takes off less. */
  lemma FailureExactIff(p: Proxy, s: Step)
    requires Balanced(p) && Enabled(p, s) && s.action.TimeOutChunk?
    ensures KeepsBalance(p, Apply(p, s)) <==> Disciplined(p, s)
    ensures p.wake.refCount - Apply(p, s).wake.refCount == ChunkWakeups(p) <==> Disciplined(p, s)
    ensures p.wake.refCount - Apply(p, s).wake.refCount >= ChunkWakeups(p)
  {
    TimeOutStep(p, s);
    TimeOutTakes(p, s);
  }

  lemma ReadMoves(p: Proxy, s: Step)
    requires Accounted(p.queue) && Honest(p.queue, p.sensors) && Enabled(p, s) && s.action.ReadEvents?
    requires Accounted(Apply(p, s).queue)
    ensures Outstanding(Apply(p, s)) == Outstanding(p) && Honest(Apply(p, s).queue, p.sensors)
    ensures Apply(p, s).queue.posted == p.queue.posted
  {
    ReadCarries(p.queue, s.action.n, p.sensors);
  }

  lemma ReadStepBalanced(p: Proxy, s: Step)
    requires Balanced(p) && Enabled(p, s) && s.action.ReadEvents?
    ensures KeepsBalance(p, Apply(p, s))
  {
    StepKeepsQueue(p, s);
    ReadMoves(p, s);
    QueueBalance(p, Apply(p, s));
  }

  lemma AcknowledgeMoves(p: Proxy, s: Step)
    requires Accounted(p.queue) && Enabled(p, s) && s.action.Acknowledge?
    ensures Outstanding(Apply(p, s)) == Outstanding(p) + s.action.count - Min(s.action.count, p.unacked)
    ensures Apply(p, s).queue == p.queue
  {
    SumAppend(p.acks, s.action.count);
  }

  /** An acknowledgement keeps the balance exactly when it is for no more than was read. */
  lemma AcknowledgeStepBalanced(p: Proxy, s: Step)
    requires Balanced(p) && Enabled(p, s) && s.action.Acknowledge?
    ensures Disciplined(p, s) ==> KeepsBalance(p, Apply(p, s))
    ensures Surplus(Apply(p, s)) == Surplus(p) ==> Disciplined(p, s)
  {
    AcknowledgeMoves(p, s);
    if Disciplined(p, s) {
      QueueBalance(p, Apply(p, s));
    }
  }

  lemma TakeAckStepBalanced(p: Proxy, s: Step)
    requires Balanced(p) && Enabled(p, s) && s.action.TakeAck?
    ensures KeepsBalance(p, Apply(p, s))
  {
    var p' := Apply(p, s);
    assert p'.queue == p.queue && p'.posting == p.posting;
    OwnDecrement(p.wake, p.acks[0]);
    assert Outstanding(p') + p.acks[0] == Outstanding(p);
  }

  /** A check of the whole lock keeps the balance exactly when it finds no timeout, or nothing to lose. */
  lemma CheckStepBalanced(p: Proxy, s: Step)
    requires Balanced(p) && Enabled(p, s) && s.action.CheckTimeout?
    ensures Disciplined(p, s) ==> KeepsBalance(p, Apply(p, s))
    ensures Balanced(Apply(p, s)) && Surplus(Apply(p, s)) == Surplus(p) ==> Disciplined(p, s)
  {
    var p' := Apply(p, s);
    assert p'.queue == p.queue && p'.posting == p.posting && p'.acks == p.acks && p'.holders == p.holders;
    TimelyStep(p, s);
    if W.DidTimeout(p.wake, s.now, p.timeout) {
      FreshOnlyFrom(p.holders, s.now);
      OwnDecrement(p.wake, p.wake.refCount);
    }
  }

  lemma StepBalanced(p: Proxy, s: Step)
    requires Balanced(p) && Enabled(p, s) && Disciplined(p, s)
    ensures KeepsBalance(p, Apply(p, s))
  {
    match s.action
    case LockHolder => LockStepBalanced(p, s);
    case DropHolder(_) => DropStepBalanced(p, s);
    case PostCharge(_, _, _) => ChargeStepBalanced(p, s);
    case PostStore(_) => StoreStepBalanced(p, s);
    case BeginWriting => WriterStepBalanced(p, s);
    case DeliverChunk => WriterStepBalanced(p, s);
    case EndWriting => WriterStepBalanced(p, s);
    case TimeOutChunk => FailureExactIff(p, s);
    case ReadEvents(_) => ReadStepBalanced(p, s);
    case Acknowledge(_) => AcknowledgeStepBalanced(p, s);
    case TakeAck => TakeAckStepBalanced(p, s);
    case _ => CheckStepBalanced(p, s);
  }

  /** The discipline asks for no more than it must: from a balanced state, a step keeps the balance if and
      only if it is disciplined. */
  lemma DisciplineExactIff(p: Proxy, s: Step)
    requires Balanced(p) && Enabled(p, s)
    ensures KeepsBalance(p, Apply(p, s)) <==> Disciplined(p, s)
  {
    if Disciplined(p, s) {
      StepBalanced(p, s);
    } else {
      match s.action
      case PostCharge(_, _, _) => ChargeStepBalanced(p, s);
      case TimeOutChunk => FailureExactIff(p, s);
      case Acknowledge(_) => AcknowledgeStepBalanced(p, s);
      case CheckTimeout => CheckStepBalanced(p, s);
      case _ =>
    }
  }

  // ---- The law over runs -------------------------------------------------------------------------------

  /** Wake-up conservation. Through any disciplined run segment the surplus stays what it was: the count is
      always that, plus the live scoped wake locks since the last reset, plus the outstanding wake-up
      events, plus those dropped. No posted wake-up event is lost track of. And as long as any wake-up
      event is waiting, unread or unacknowledged, the OS lock is held. */
  lemma {:induction false} WakeupConservation(p: Proxy, steps: seq<Step>)
    requires Balanced(p) && Feasible(p, steps) && DisciplinedRun(p, steps)
    ensures KeepsBalance(p, Run(p, steps))
    ensures var end := Run(p, steps);
            Carried(end.queue, end.sensors) + end.unacked > 0 ==> end.wake.Held()
    decreases |steps|
  {
    if steps != [] {
      StepBalanced(p, steps[0]);
      WakeupConservation(Apply(p, steps[0]), steps[1..]);
    }
  }

  /** The same law across initialisations. Take any run at all, stop and start included, then a new
      initialisation, then any disciplined run: the count is what it is for since that initialisation, plus
      what survived it; and every wake-up event posted since then is accounted for. */
  lemma ConservationSinceRestart(p: Proxy, before: seq<Step>, restart: Step, after: seq<Step>)
    requires Timely(p) && W.HeldWhileCounted(p.wake) && Feasible(p, before)
    requires Enabled(Run(p, before), restart) && restart.action.Restart?
    requires Fresh(Run(p, before).holders, restart.now) <= Run(p, before).wake.refCount
    requires Feasible(Apply(Run(p, before), restart), after)
    requires DisciplinedRun(Apply(Run(p, before), restart), after)
    ensures var p1, end := Run(p, before), Run(Apply(Run(p, before), restart), after);
            && Accounted(end.queue)
            && end.wake.refCount == Fresh(end.holders, end.wake.resetTime) + Outstanding(end) + end.lost
                                    + p1.wake.refCount - Fresh(p1.holders, restart.now)
            && Wakeups(end.queue.posted, end.sensors) + PostingWakeups(end)
               == Outstanding(end) + end.lost + end.taken + end.failed
            && (Carried(end.queue, end.sensors) + end.unacked > 0 ==> end.wake.Held())
  {
    var p1 := Run(p, before);
    TimelyInEveryRun(p, before);
    LockHeldInEveryRun(p, before);
    RestartIsBalanced(p1, restart);
    WakeupConservation(Apply(p1, restart), after);
  }

  /** What an overflow dropped is never acknowledged, and what survived an initialisation never given back:
      once everything else is settled, exactly those counts remain, and they keep the lock held. */
  lemma DroppedWakeupsKeepLock(p: Proxy, steps: seq<Step>)
    requires Balanced(p) && Feasible(p, steps) && DisciplinedRun(p, steps)
    requires var end := Run(p, steps);
             Fresh(end.holders, end.wake.resetTime) == 0 && Accounted(end.queue) && Outstanding(end) == 0
    ensures Run(p, steps).wake.refCount == Run(p, steps).lost + Surplus(p)
    ensures Run(p, steps).lost + Surplus(p) > 0 ==> Run(p, steps).wake.Held()
  {
    WakeupConservation(p, steps);
  }
}
