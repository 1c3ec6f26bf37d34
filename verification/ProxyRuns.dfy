/** The proxy as a whole: every interleaving of posters, the pending-writes thread, the wake-lock thread,
    scoped wake locks, the framework, and stop and restart, one step per critical section. */
module ProxyRuns {
  import opened Wrappers
  import opened Events
  import opened EventQueue
  import opened SensorTable
  import opened Sequences
  import W = WakeLock

  /** A poster that has charged its batch to the wake lock and still holds the event-queue mutex. */
  datatype Posting = Posting(events: seq<Event>, wakeups: nat)

  /** `holders` are the start times of the live scoped wake locks; `acks` the acknowledgements written
      but not yet taken by the wake-lock thread. The last four are bookkeeping since the last
      initialisation: wake-up events read but not acknowledged, wake-up events dropped for want of room,
      acknowledgements taken, and wake-up events whose write timed out. */
  datatype Proxy = Proxy(
    running: bool,
    clock: int,
    timeout: nat,
    sensors: Sensors,
    wake: W.WakeLock,
    queue: Queue,
    posting: Option<Posting>,
    holders: seq<int>,
    acks: seq<nat>,
    unacked: nat,
    lost: nat,
    taken: nat,
    failed: nat)

  datatype Action =
    | LockHolder
    | DropHolder(k: nat)
    | PostCharge(events: seq<Event>, wakeups: nat, locked: bool)
    | PostStore(writeOk: bool)
    | BeginWriting
    | DeliverChunk
    | TimeOutChunk
    | EndWriting
    | ReadEvents(n: nat)
    | Acknowledge(count: nat)
    | CheckTimeout
    | TakeAck
    | Stop
    | ThreadExit
    | Restart(capacity: nat)

  datatype Step = Step(now: int, action: Action)

  predicate Enabled(p: Proxy, s: Step) {
    && p.clock <= s.now
    && |p.queue.fmq| <= p.queue.capacity
    && match s.action
       case DropHolder(k) => k < |p.holders|
       case PostCharge(_, _, _) => p.posting.None?
       case PostStore(_) => p.posting.Some?
       case BeginWriting => p.running && p.posting.None? && p.queue.writer == Idle && p.queue.backlog != []
       case DeliverChunk => WriterReady(p.queue) && p.queue.writer.Blocking?
                            && |p.queue.fmq| + p.queue.writer.n <= p.queue.capacity
       case TimeOutChunk => WriterReady(p.queue) && p.queue.writer.Blocking?
       case EndWriting => WriterReady(p.queue) && !p.queue.writer.Blocking? && p.posting.None?
                          && p.queue.writer.n <= p.queue.size
       case ReadEvents(n) => n <= |p.queue.fmq|
       case CheckTimeout => p.running && p.wake.refCount > 0
       case TakeAck => p.acks != []
       case ThreadExit => !p.running
       case Restart(_) => !p.running && p.queue.writer == Idle && p.posting.None?
       case _ => true
  }

  predicate WriterReady(q: Queue) {
    q.writer != Idle && q.backlog != [] && q.writer.n == Min(|q.backlog[0].events|, q.capacity)
  }

  function Increment(p: Proxy, delta: nat, now: int): W.WakeLock {
    if p.running then W.Increment(p.wake, delta, now) else p.wake
  }

  function Decrement(p: Proxy, delta: nat, start: int): W.WakeLock {
    if p.running then W.Decrement(p.wake, delta, start) else p.wake
  }

  function Apply(p: Proxy, s: Step): Proxy
    requires Enabled(p, s)
  {
    var p := p.(clock := s.now);
    match s.action
    case LockHolder =>
      p.(wake := Increment(p, 1, s.now), holders := if p.running then p.holders + [s.now] else p.holders)
    case DropHolder(k) =>
      p.(wake := Decrement(p, 1, p.holders[k]), holders := Without(p.holders, k))
    case PostCharge(events, wakeups, locked) =>
      p.(wake := if locked then Increment(p, wakeups, s.now) else p.wake, posting := Some(Posting(events, wakeups)))
    case PostStore(writeOk) =>
      var batch := p.posting.value;
      p.(queue := Post(p.queue, batch.events, batch.wakeups, writeOk), posting := None,
         lost := p.lost + Wakeups(Dropped(p.queue, batch.events, writeOk), p.sensors))
    case BeginWriting => p.(queue := BeginWrite(p.queue))
    case DeliverChunk => p.(queue := Deliver(p.queue))
    case TimeOutChunk =>
      p.(wake := Decrement(p, FailedWakeups(p.queue, p.sensors), W.NO_START), queue := Fail(p.queue),
         failed := p.failed + Wakeups(Chunk(p.queue), p.sensors))
    case EndWriting => p.(queue := EndWrite(p.queue))
    case ReadEvents(n) =>
      p.(queue := Read(p.queue, n), unacked := p.unacked + Wakeups(p.queue.fmq[..n], p.sensors))
    case Acknowledge(count) => p.(acks := p.acks + [count], unacked := p.unacked - Min(count, p.unacked))
    case CheckTimeout => p.(wake := W.Iterate(p.wake, p.running, s.now, p.timeout))
    case TakeAck =>
      p.(wake := Decrement(p, p.acks[0], W.NO_START), acks := p.acks[1..], taken := p.taken + p.acks[0])
    case Stop => p.(running := false, queue := Discard(p.queue), acks := p.acks + [0])
    case ThreadExit => p.(wake := W.Reset(p.wake, p.running, s.now))
    case Restart(capacity) =>
      p.(running := true, wake := W.Reset(p.wake, p.running, s.now),
         queue := NewQueue(capacity, p.queue.maxPending, p.queue.mostObserved),
         acks := [], unacked := 0, lost := 0, taken := 0, failed := 0)
  }

  predicate Feasible(p: Proxy, steps: seq<Step>)
    decreases |steps|
  {
    steps == [] || (Enabled(p, steps[0]) && Feasible(Apply(p, steps[0]), steps[1..]))
  }

  function Run(p: Proxy, steps: seq<Step>): Proxy
    requires Feasible(p, steps)
    decreases |steps|
  {
    if steps == [] then p else Run(Apply(p, steps[0]), steps[1..])
  }

  /** The proxy just after a first initialisation at time `now`. */
  function Started(capacity: nat, maxPending: nat, timeout: nat, sensors: Sensors, now: nat): Proxy {
    Proxy(true, now, timeout, sensors, W.WakeLock(0, [], 0, now), NewQueue(capacity, maxPending, 0),
          None, [], [], 0, 0, 0, 0)
  }

  // ---- The event queue -----------------------------------------------------------------------------

  lemma StepKeepsQueue(p: Proxy, s: Step)
    requires Enabled(p, s) && Valid(p.queue)
    ensures Valid(Apply(p, s).queue)
  {
    var q := p.queue;
    match s.action
    case PostStore(writeOk) => PostKeepsOrder(q, p.posting.value.events, p.posting.value.wakeups, writeOk);
    case BeginWriting => BeginWriteKeepsOrder(q);
    case DeliverChunk => DeliverKeepsOrder(q);
    case TimeOutChunk => FailKeepsOrder(q);
    case EndWriting => EndWriteKeepsOrder(q);
    case ReadEvents(n) => ReadersKeepOrder(q, n);
    case Stop => ReadersKeepOrder(q, 0);
    case _ =>
  }

  /** In every run: the backlog's size is the sum of its entries' lengths and within its bound, no entry
      is empty, the accepted events are those settled followed by those in the backlog, and events reach
      the framework in the order in which they were posted. */
  lemma {:induction false} QueueValidInEveryRun(p: Proxy, steps: seq<Step>)
    requires Feasible(p, steps) && Valid(p.queue)
    ensures Valid(Run(p, steps).queue)
    ensures IsSubsequence(Run(p, steps).queue.received, Run(p, steps).queue.posted)
    decreases |steps|
  {
    if steps == [] {
      ReceivedInPostedOrder(p.queue);
    } else {
      StepKeepsQueue(p, steps[0]);
      QueueValidInEveryRun(Apply(p, steps[0]), steps[1..]);
    }
  }

  /** In every run the queue is within its capacity, a writer's chunk is the front of the first entry, and
      taking it off the backlog's size cannot underflow; so the guards of `Enabled` that say as much
      exclude no step that the code can take. */
  lemma SizeNeverUnderflows(p: Proxy, steps: seq<Step>)
    requires Feasible(p, steps) && Valid(p.queue)
    ensures var q := Run(p, steps).queue;
            |q.fmq| <= q.capacity && (q.writer != Idle ==> WriterReady(q) && q.writer.n <= q.size)
  {
    QueueValidInEveryRun(p, steps);
    var q := Run(p, steps).queue;
    if q.writer != Idle {
      FlattenFront(q.backlog);
    }
  }

  /** In every state of every run each thread can take its next section whenever nobody holds the mutex and
      what it waits for is there, and a post, an acknowledgement, a stop or a new scoped wake lock can
      always come. */
  lemma SectionsCanRun(p: Proxy, now: int, batch: Posting, flag: bool, count: nat)
    requires Valid(p.queue) && p.clock <= now
    ensures Enabled(p, Step(now, BeginWriting))
            <==> p.running && p.posting.None? && p.queue.writer.Idle? && p.queue.backlog != []
    ensures Enabled(p, Step(now, DeliverChunk))
            <==> p.queue.writer.Blocking? && |p.queue.fmq| + p.queue.writer.n <= p.queue.capacity
    ensures Enabled(p, Step(now, TimeOutChunk)) <==> p.queue.writer.Blocking?
    ensures Enabled(p, Step(now, EndWriting))
            <==> p.posting.None? && (p.queue.writer.Delivered? || p.queue.writer.Failed?)
    ensures Enabled(p, Step(now, CheckTimeout)) <==> p.running && p.wake.refCount > 0
    ensures Enabled(p, Step(now, TakeAck)) <==> p.acks != []
    ensures Enabled(p, Step(now, if p.posting.None? then PostCharge(batch.events, batch.wakeups, flag)
                                 else PostStore(flag)))
    ensures Enabled(p, Step(now, Acknowledge(count)))
    ensures Enabled(p, Step(now, Stop)) && Enabled(p, Step(now, LockHolder))
  {
    if p.queue.writer != Idle {
      FlattenFront(p.queue.backlog);
    }
  }

  /** Between the pending-writes thread's two critical sections nobody else writes to the queue: only
      that thread's own delivery adds to it, in every run. */
  lemma SingleWriter(p: Proxy, steps: seq<Step>, s: Step)
    requires Feasible(p, steps) && Valid(p.queue)
    requires Enabled(Run(p, steps), s)
    requires Run(p, steps).queue.writer != Idle && !s.action.DeliverChunk?
    ensures Apply(Run(p, steps), s).queue.written == Run(p, steps).queue.written
  {
    QueueValidInEveryRun(p, steps);
    var end := Run(p, steps);
    if s.action.PostStore? {
      PostLeavesQueueAlone(end.queue, end.posting.value.events, end.posting.value.wakeups, s.action.writeOk);
    }
  }

  /** What holds from a stop to the next initialisation: nothing is in the queue while the writer waits. */
  ghost predicate Draining(p: Proxy) {
    !p.running && Valid(p.queue) && (p.queue.writer.Blocking? ==> p.queue.fmq == [])
  }

  lemma DrainingStep(p: Proxy, s: Step)
    requires Draining(p) && Enabled(p, s) && !s.action.Restart?
    ensures !Apply(p, s).running
    ensures Apply(p, s).queue.writer.Blocking? ==> Apply(p, s).queue.fmq == []
  {
    if s.action.PostStore? {
      if p.queue.writer.Blocking? {
        PostLeavesQueueAlone(p.queue, p.posting.value.events, p.posting.value.wakeups, s.action.writeOk);
      } else {
        assert Apply(p, s).queue.writer == p.queue.writer;
      }
    }
  }

  lemma {:induction false} StaysDraining(p: Proxy, steps: seq<Step>)
    requires Draining(p) && Feasible(p, steps)
    requires forall s | s in steps :: !s.action.Restart?
    ensures Draining(Run(p, steps))
    decreases |steps|
  {
    if steps != [] {
      assert !steps[0].action.Restart?;
      StepKeepsQueue(p, steps[0]);
      DrainingStep(p, steps[0]);
      var p' := Apply(p, steps[0]);
      assert Draining(p');
      StaysDraining(p', steps[1..]);
    }
  }

  lemma DrainingWriterFinishes(p: Proxy, now: int)
    requires Draining(p) && p.clock <= now
    ensures p.queue.writer.Blocking? ==> Enabled(p, Step(now, DeliverChunk))
  {
  }

  /** Stopping the threads lets a blocked writer finish, so that its thread can be joined: from any state
      of any run, after a stop and whatever follows before a new initialisation, there is room for the
      chunk of a writer that is still blocked. */
  lemma StopLetsWriterFinish(p: Proxy, stop: Step, after: seq<Step>, now: int)
    requires Valid(p.queue) && Enabled(p, stop) && stop.action == Stop
    requires Feasible(Apply(p, stop), after) && forall s | s in after :: !s.action.Restart?
    requires Run(Apply(p, stop), after).clock <= now
    ensures var end := Run(Apply(p, stop), after);
            !end.running && (end.queue.writer.Blocking? ==> Enabled(end, Step(now, DeliverChunk)))
  {
    StepKeepsQueue(p, stop);
    var p' := Apply(p, stop);
    assert Draining(p');
    StaysDraining(p', after);
    DrainingWriterFinishes(Run(p', after), now);
  }

  function LargestSize(p: Proxy, steps: seq<Step>): nat
    requires Feasible(p, steps)
    decreases |steps|
  {
    if steps == [] then p.queue.size
    else Max(p.queue.size, LargestSize(Apply(p, steps[0]), steps[1..]))
  }

  /** The high-water mark is the largest size the backlog has had, across restarts. */
  lemma {:induction false} HighWaterMark(p: Proxy, steps: seq<Step>)
    requires Feasible(p, steps) && Valid(p.queue)
    ensures Run(p, steps).queue.mostObserved == Max(p.queue.mostObserved, LargestSize(p, steps))
    decreases |steps|
  {
    if steps != [] {
      StepKeepsQueue(p, steps[0]);
      HighWaterMark(Apply(p, steps[0]), steps[1..]);
      HighWaterStep(p, steps[0]);
    }
  }

  lemma HighWaterStep(p: Proxy, s: Step)
    requires Enabled(p, s) && Valid(p.queue)
    ensures var p' := Apply(p, s);
            p'.queue.mostObserved == Max(p.queue.mostObserved, p'.queue.size)
  {
  }

  // ---- The wake lock -------------------------------------------------------------------------------

  /** The wake-lock section that a step amounts to, if it has one. */
  function Sections(p: Proxy, s: Step): seq<W.Section>
    requires Enabled(p, s)
  {
    match s.action
    case LockHolder => if p.running then [W.Section(s.now, W.Grow(1))] else []
    case DropHolder(k) => if p.running then [W.Section(s.now, W.Shrink(1, p.holders[k]))] else []
    case PostCharge(_, wakeups, locked) =>
      if p.running && locked then [W.Section(s.now, W.Grow(wakeups))] else []
    case TimeOutChunk =>
      if p.running then [W.Section(s.now, W.Shrink(FailedWakeups(p.queue, p.sensors), W.NO_START))] else []
    case CheckTimeout => [W.Section(s.now, W.Check(p.running))]
    case TakeAck => if p.running then [W.Section(s.now, W.Shrink(p.acks[0], W.NO_START))] else []
    case ThreadExit => [W.Section(s.now, W.ResetNow(p.running))]
    case Restart(_) => [W.Section(s.now, W.ResetNow(p.running))]
    case _ => []
  }

  function AllSections(p: Proxy, steps: seq<Step>): seq<W.Section>
    requires Feasible(p, steps)
    decreases |steps|
  {
    if steps == [] then [] else Sections(p, steps[0]) + AllSections(Apply(p, steps[0]), steps[1..])
  }

  lemma StepIsSections(p: Proxy, s: Step)
    requires Enabled(p, s)
    ensures Apply(p, s).wake == W.Run(p.wake, Sections(p, s), p.timeout)
    ensures Apply(p, s).timeout == p.timeout
  {
    if Sections(p, s) != [] {
      assert Sections(p, s)[..0] == [];
      assert W.Run(p.wake, Sections(p, s)[..0], p.timeout) == p.wake;
    }
  }

  /** Every run of the proxy is, for the wake lock, a run of its sections: all that is known of those
      runs holds of the proxy. */
  lemma {:induction false} RunIsSections(p: Proxy, steps: seq<Step>)
    requires Feasible(p, steps)
    ensures Run(p, steps).wake == W.Run(p.wake, AllSections(p, steps), p.timeout)
    decreases |steps|
  {
    if steps != [] {
      StepIsSections(p, steps[0]);
      RunIsSections(Apply(p, steps[0]), steps[1..]);
      W.RunConcat(p.wake, Sections(p, steps[0]), AllSections(Apply(p, steps[0]), steps[1..]), p.timeout);
    }
  }

  lemma {:induction false} SectionsAreMonotone(p: Proxy, steps: seq<Step>)
    requires Feasible(p, steps)
    ensures forall i | 0 <= i < |AllSections(p, steps)| :: p.clock <= AllSections(p, steps)[i].now
    ensures forall i, j | 0 <= i < j < |AllSections(p, steps)| ::
              AllSections(p, steps)[i].now <= AllSections(p, steps)[j].now
    decreases |steps|
  {
    if steps != [] {
      SectionsAreMonotone(Apply(p, steps[0]), steps[1..]);
      assert |Sections(p, steps[0])| <= 1;
    }
  }

  /** Over-acknowledgement, write timeouts, resets, stop and restart included: a positive count means
      that the OS lock is held. */
  lemma LockHeldInEveryRun(p: Proxy, steps: seq<Step>)
    requires Feasible(p, steps) && W.HeldWhileCounted(p.wake)
    ensures W.HeldWhileCounted(Run(p, steps).wake)
  {
    RunIsSections(p, steps);
    W.CountImpliesHeld(p.wake, AllSections(p, steps), p.timeout);
  }

  /** A locked batch carries at least one wake-up event, as the callback asserts. */
  predicate ChargesSomething(s: Step) {
    s.action.PostCharge? && s.action.locked ==> s.action.wakeups > 0
  }

  lemma {:induction false} SectionsChargeSomething(p: Proxy, steps: seq<Step>)
    requires Feasible(p, steps)
    requires forall s | s in steps :: ChargesSomething(s)
    ensures W.GrowthIsPositive(AllSections(p, steps))
    decreases |steps|
  {
    if steps != [] {
      assert ChargesSomething(steps[0]);
      SectionsChargeSomething(Apply(p, steps[0]), steps[1..]);
    }
  }

  /** When locked batches carry wake-up events, the lock is held exactly while the count is positive and
      the OS sees strictly alternating acquire and release calls. */
  lemma LockExactInEveryRun(p: Proxy, steps: seq<Step>)
    requires Feasible(p, steps) && W.Exact(p.wake)
    requires forall s | s in steps :: ChargesSomething(s)
    ensures W.Exact(Run(p, steps).wake)
  {
    RunIsSections(p, steps);
    SectionsChargeSomething(p, steps);
    W.HeldIffCounted(p.wake, AllSections(p, steps), p.timeout);
  }

  /** No increment of the run leaves the count at zero. */
  predicate ChargesCount(p: Proxy, steps: seq<Step>)
    requires Feasible(p, steps)
    decreases |steps|
  {
    steps == [] || ((p.running && MayIncrement(steps[0]) ==> Apply(p, steps[0]).wake.refCount > 0)
                    && ChargesCount(Apply(p, steps[0]), steps[1..]))
  }

  lemma StepExactIff(p: Proxy, s: Step)
    requires Enabled(p, s) && W.HeldWhileCounted(p.wake)
    ensures W.HeldWhileCounted(Apply(p, s).wake)
    ensures W.Exact(Apply(p, s).wake)
            <==> W.Exact(p.wake) && (p.running && MayIncrement(s) ==> Apply(p, s).wake.refCount > 0)
  {
    StepIsSections(p, s);
    var sections := Sections(p, s);
    if sections != [] {
      assert sections[..0] == [] && W.Run(p.wake, [], p.timeout) == p.wake;
      W.SectionExactIff(p.wake, sections[0], p.timeout);
      W.CountImpliesHeld(p.wake, sections, p.timeout);
    }
  }

  /** Without any assumption about the posters: the lock is held exactly while the count is positive, with
      strictly alternating calls, if and only if that was so at first and no increment of the run has left
      the count at zero. Nothing mends a lock once it is out of step. */
  lemma {:induction false} LockExactIff(p: Proxy, steps: seq<Step>)
    requires Feasible(p, steps) && W.HeldWhileCounted(p.wake)
    ensures W.Exact(Run(p, steps).wake) <==> W.Exact(p.wake) && ChargesCount(p, steps)
    decreases |steps|
  {
    if steps != [] {
      StepExactIff(p, steps[0]);
      LockExactIff(Apply(p, steps[0]), steps[1..]);
    }
  }

  // ---- Bounded hold --------------------------------------------------------------------------------

  predicate MayIncrement(s: Step) {
    s.action.LockHolder? || (s.action.PostCharge? && s.action.locked)
  }

  lemma {:induction false} GrowthComesFromIncrements(p: Proxy, steps: seq<Step>)
    requires Feasible(p, steps)
    ensures forall i | 0 <= i < |AllSections(p, steps)| && AllSections(p, steps)[i].action.Grow? ::
              exists s :: s in steps && MayIncrement(s) && s.now == AllSections(p, steps)[i].now
    decreases |steps|
  {
    if steps != [] {
      var tail := steps[1..];
      GrowthComesFromIncrements(Apply(p, steps[0]), tail);
      var first, others := Sections(p, steps[0]), AllSections(Apply(p, steps[0]), tail);
      var sections: seq<W.Section> := first + others;
      forall i | 0 <= i < |sections| && sections[i].action.Grow?
        ensures exists s :: s in steps && MayIncrement(s) && s.now == sections[i].now
      {
        if i < |first| {
          assert steps[0] in steps && MayIncrement(steps[0]);
        } else {
          var s :| s in tail && MayIncrement(s) && s.now == others[i - |first|].now;
          assert s in steps;
        }
      }
    }
  }

  /** Bounded hold, for the whole proxy. Take any run, then one pass of the wake-lock thread through its
      timeout check, then any run in which nothing increments. If every increment of the first run, and
      the last one before it, is more than the timeout old at the check, the count ends at zero and the
      lock is released, no matter what was never acknowledged, survived a restart or was charged with
      nothing. */
  lemma BoundedHoldInEveryRun(p: Proxy, before: seq<Step>, check: Step, after: seq<Step>)
    requires 0 <= p.wake.resetTime <= p.clock && 0 <= p.wake.timeoutStart <= p.clock
    requires Feasible(p, before) && Enabled(Run(p, before), check) && check.action == CheckTimeout
    requires Feasible(Apply(Run(p, before), check), after)
    requires check.now - p.wake.timeoutStart > p.timeout
    requires forall s | s in before && MayIncrement(s) :: check.now - s.now > p.timeout
    requires forall s | s in after :: !MayIncrement(s)
    ensures var end := Run(Apply(Run(p, before), check), after);
            end.wake.refCount == 0 && !end.wake.Held()
  {
    var p1 := Run(p, before);
    var p2 := Apply(p1, check);
    RunIsSections(p, before);
    TimeoutIsFixed(p, before);
    SectionsAreMonotone(p, before);
    GrowthComesFromIncrements(p, before);
    W.LateCheckClears(p.wake, AllSections(p, before), check.now, p.timeout);
    RunIsSections(p2, after);
    GrowthComesFromIncrements(p2, after);
    W.ZeroWithoutGrowth(p2.wake, AllSections(p2, after), p2.timeout);
  }

  /** The bound does not hold at count zero: a lock that is held with no count behind it stays held in any
      run in which nothing increments, for no acknowledgement, timeout, stop or restart gives it back. */
  lemma LeakedLockStays(p: Proxy, steps: seq<Step>)
    requires Feasible(p, steps)
    requires p.wake.refCount == 0 && p.wake.Held()
    requires forall s | s in steps :: !MayIncrement(s)
    ensures Run(p, steps).wake.refCount == 0 && Run(p, steps).wake.Held()
  {
    RunIsSections(p, steps);
    GrowthComesFromIncrements(p, steps);
    W.ZeroWithoutGrowth(p.wake, AllSections(p, steps), p.timeout);
  }

  lemma {:induction false} TimeoutIsFixed(p: Proxy, steps: seq<Step>)
    requires Feasible(p, steps)
    ensures Run(p, steps).timeout == p.timeout && Run(p, steps).sensors == p.sensors
    decreases |steps|
  {
    if steps != [] {
      TimeoutIsFixed(Apply(p, steps[0]), steps[1..]);
    }
  }
}
