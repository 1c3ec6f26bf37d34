/** Runs that show what the proxy does where a simpler claim would fail. */
module Witnesses {
  import opened Wrappers
  import opened Conservation
  import opened Events
  import opened EventQueue
  import opened ProxyRuns
  import opened SensorTable
  import W = WakeLock

  const SENSORS: Sensors := map[1 := SensorInfo(1, WAKE_UP, OtherType(1), OtherString("tap"))]
  const TAP := Event(1, 10, 0.0)

  function Taps(n: nat): seq<Event> {
    seq(n, i => TAP)
  }

  lemma {:induction false} CountTaps(n: nat)
    ensures Wakeups(Taps(n), SENSORS) == n
  {
    assert IsWakeUp(SENSORS, 1) by { assert 0 in WAKE_UP * WAKE_UP; }
    if n > 0 {
      CountTaps(n - 1);
      assert Taps(n)[..n - 1] == Taps(n - 1);
    }
  }

  lemma SplitTaps(n: nat, k: nat)
    requires k <= n
    ensures Taps(n)[..k] == Taps(k) && Taps(n)[k..] == Taps(n - k)
  {
  }

  /** A first step before a run whose own facts are known. */
  lemma Before(p: Proxy, s: Step, steps: seq<Step>)
    requires Enabled(p, s) && Feasible(Apply(p, s), steps)
    ensures Feasible(p, [s] + steps) && Run(p, [s] + steps) == Run(Apply(p, s), steps)
    ensures DisciplinedRun(p, [s] + steps) <==> Disciplined(p, s) && DisciplinedRun(Apply(p, s), steps)
  {
    assert ([s] + steps)[1..] == steps;
  }

  lemma BeforeTwo(p: Proxy, s: Step, t: Step, tail: seq<Step>) returns (steps: seq<Step>)
    requires Enabled(p, s) && Enabled(Apply(p, s), t) && Feasible(Apply(Apply(p, s), t), tail)
    requires Disciplined(p, s) && Disciplined(Apply(p, s), t) && DisciplinedRun(Apply(Apply(p, s), t), tail)
    ensures Feasible(p, steps) && DisciplinedRun(p, steps) && Run(p, steps) == Run(Apply(Apply(p, s), t), tail)
  {
    Before(Apply(p, s), t, tail);
    Before(p, s, [t] + tail);
    steps := [s] + ([t] + tail);
  }

  function Start(capacity: nat, maxPending: nat): Proxy {
    Started(capacity, maxPending, 100, SENSORS, 0)
  }

  /** The balance of the start holds through any disciplined run. */
  lemma BalancedThroughout(capacity: nat, maxPending: nat, steps: seq<Step>)
    requires Feasible(Start(capacity, maxPending), steps) && DisciplinedRun(Start(capacity, maxPending), steps)
    ensures Balanced(Run(Start(capacity, maxPending), steps))
  {
    StartIsBalanced(capacity, maxPending, 100, SENSORS, 0);
    WakeupConservation(Start(capacity, maxPending), steps);
  }

  // ---- A batch of wake-up events that the queue has no room for, posted under a wake lock ----------------

  const LOCK := Step(1, LockHolder)
  const STORE := Step(1, PostStore(true))
  const UNLOCK := Step(1, DropHolder(0))

  function Charge(n: nat): Step {
    Step(1, PostCharge(Taps(n), n, true))
  }

  ghost predicate Locked(p: Proxy, capacity: nat, maxPending: nat) {
    && p.running && p.clock == 1 && p.sensors == SENSORS && p.holders == [1] && p.acks == []
    && p.wake == W.WakeLock(1, [W.Acquire], 1, 0) && p.queue == NewQueue(capacity, maxPending, 0)
    && p.posting == None && p.unacked == 0 && p.lost == 0
  }

  ghost predicate Charged(p: Proxy, capacity: nat, maxPending: nat, n: nat) {
    && p.running && p.clock == 1 && p.sensors == SENSORS && p.holders == [1] && p.acks == []
    && p.wake == W.WakeLock(n + 1, [W.Acquire], 1, 0) && p.queue == NewQueue(capacity, maxPending, 0)
    && p.posting == Some(Posting(Taps(n), n)) && p.unacked == 0 && p.lost == 0
  }

  /** The queue has taken what it could; the others are on the backlog, or lost. */
  ghost predicate Filled(p: Proxy, capacity: nat, maxPending: nat, n: nat, holders: seq<int>)
    requires capacity < n
  {
    && p.running && p.clock == 1 && p.sensors == SENSORS && p.holders == holders && p.acks == []
    && p.wake == W.WakeLock(n + |holders|, [W.Acquire], 1, 0)
    && p.queue.capacity == capacity && p.queue.fmq == Taps(capacity) && p.queue.writer == Idle
    && p.posting == None && p.unacked == 0
    && if n - capacity <= maxPending
       then p.queue.backlog == [Batch(Taps(n - capacity), n)] && p.lost == 0
       else p.queue.backlog == [] && p.queue.size == 0 && p.lost == n - capacity
  }

  lemma Unlocks(p: Proxy, capacity: nat, maxPending: nat, n: nat)
    requires capacity < n && Filled(p, capacity, maxPending, n, [1])
    ensures Enabled(p, UNLOCK) && Disciplined(p, UNLOCK)
    ensures Filled(Apply(p, UNLOCK), capacity, maxPending, n, [])
  {
  }

  lemma Stores(p: Proxy, capacity: nat, maxPending: nat, n: nat)
    requires capacity < n && Charged(p, capacity, maxPending, n)
    ensures Enabled(p, STORE) && Disciplined(p, STORE)
    ensures Filled(Apply(p, STORE), capacity, maxPending, n, [1])
  {
    SplitTaps(n, capacity);
    CountTaps(n - capacity);
    assert NumToWrite(p.queue, Taps(n), true) == capacity;
  }

  lemma Charges(p: Proxy, capacity: nat, maxPending: nat, n: nat)
    requires Locked(p, capacity, maxPending)
    ensures Enabled(p, Charge(n)) && Disciplined(p, Charge(n))
    ensures Charged(Apply(p, Charge(n)), capacity, maxPending, n)
  {
    CountTaps(n);
  }

  lemma Locks(capacity: nat, maxPending: nat)
    ensures Enabled(Start(capacity, maxPending), LOCK) && Disciplined(Start(capacity, maxPending), LOCK)
    ensures Locked(Apply(Start(capacity, maxPending), LOCK), capacity, maxPending)
  {
    assert [] + [W.Acquire] == [W.Acquire];
  }

  /** The state after the lock, the post and the unlock. */
  lemma Posts(capacity: nat, maxPending: nat, n: nat) returns (p: Proxy)
    requires capacity < n
    ensures Filled(p, capacity, maxPending, n, [])
    ensures forall tail | Feasible(p, tail) && DisciplinedRun(p, tail) :: IsTail(capacity, maxPending, p, tail)
  {
    var start := Start(capacity, maxPending);
    Locks(capacity, maxPending);
    var p1 := Apply(start, LOCK);
    Charges(p1, capacity, maxPending, n);
    var p2 := Apply(p1, Charge(n));
    Stores(p2, capacity, maxPending, n);
    var p3 := Apply(p2, STORE);
    Unlocks(p3, capacity, maxPending, n);
    p := Apply(p3, UNLOCK);
    forall tail | Feasible(p, tail) && DisciplinedRun(p, tail) ensures IsTail(capacity, maxPending, p, tail) {
      var storing := BeforeTwo(p2, STORE, UNLOCK, tail);
      var all := BeforeTwo(start, LOCK, Charge(n), storing);
      assert LeadsTo(capacity, maxPending, all, Run(p, tail));
    }
  }

  /** A disciplined run from the start ends in `p`. */
  ghost predicate LeadsTo(capacity: nat, maxPending: nat, steps: seq<Step>, p: Proxy) {
    && Feasible(Start(capacity, maxPending), steps) && DisciplinedRun(Start(capacity, maxPending), steps)
    && Run(Start(capacity, maxPending), steps) == p
  }

  ghost predicate IsTail(capacity: nat, maxPending: nat, p: Proxy, tail: seq<Step>)
    requires Feasible(p, tail)
  {
    exists steps :: LeadsTo(capacity, maxPending, steps, Run(p, tail))
  }

  // ---- What the backlog has no room for is lost, and keeps the lock ----------------------------------------

  const TAKE := Step(2, TakeAck)

  function ReadAll(n: nat): Step {
    Step(2, ReadEvents(n))
  }

  function AcknowledgeAll(n: nat): Step {
    Step(2, Acknowledge(n))
  }

  ghost predicate Quiet(p: Proxy) {
    && p.running && p.clock <= 2 && p.holders == [] && p.posting == None
    && p.queue.fmq == [] && p.queue.backlog == [] && p.queue.writer == Idle && p.queue.size == 0
  }

  ghost predicate Settled(p: Proxy, lost: nat) {
    && p.holders == [] && p.lost == lost == p.wake.refCount && p.wake.Held()
    && Accounted(p.queue) && Outstanding(p) == 0
  }

  lemma SettlesAfterTake(p: Proxy, n: nat, lost: nat)
    requires Quiet(p) && p.acks == [n] && p.unacked == 0 && p.lost == lost > 0
    requires p.wake == W.WakeLock(n + lost, [W.Acquire], 1, 0)
    ensures Feasible(p, [TAKE]) && DisciplinedRun(p, [TAKE]) && Settled(Run(p, [TAKE]), lost)
  {
    Before(p, TAKE, []);
    assert [TAKE] + [] == [TAKE];
  }

  lemma SettlesAfterAcknowledge(p: Proxy, n: nat, lost: nat)
    requires Quiet(p) && p.acks == [] && p.unacked == n && p.lost == lost > 0
    requires p.wake == W.WakeLock(n + lost, [W.Acquire], 1, 0)
    ensures var steps := [AcknowledgeAll(n)] + [TAKE];
            Feasible(p, steps) && DisciplinedRun(p, steps) && Settled(Run(p, steps), lost)
  {
    SettlesAfterTake(Apply(p, AcknowledgeAll(n)), n, lost);
    Before(p, AcknowledgeAll(n), [TAKE]);
  }

  lemma SettlesAfterRead(p: Proxy, capacity: nat, maxPending: nat) returns (steps: seq<Step>)
    requires Filled(p, capacity, maxPending, capacity + maxPending + 1, [])
    ensures Feasible(p, steps) && DisciplinedRun(p, steps) && Settled(Run(p, steps), maxPending + 1)
  {
    CountTaps(capacity);
    SplitTaps(capacity, capacity);
    SettlesAfterAcknowledge(Apply(p, ReadAll(capacity)), capacity, maxPending + 1);
    Before(p, ReadAll(capacity), [AcknowledgeAll(capacity)] + [TAKE]);
    steps := [ReadAll(capacity)] + ([AcknowledgeAll(capacity)] + [TAKE]);
  }

  /** Whatever the queue's capacity and the backlog's bound: a batch of wake-up events larger than both is
      posted under a wake lock, the lock ends, all that arrived is read and acknowledged, nothing is left to
      be done; and the OS lock is still held for those that were dropped. */
  lemma DroppedWakeupHoldsLock(capacity: nat, maxPending: nat) returns (steps: seq<Step>)
    ensures Feasible(Start(capacity, maxPending), steps) && DisciplinedRun(Start(capacity, maxPending), steps)
    ensures var end := Run(Start(capacity, maxPending), steps);
            && end.holders == [] && Accounted(end.queue) && Outstanding(end) == 0
            && end.lost == end.wake.refCount == maxPending + 1 && end.wake.Held()
  {
    var p := Posts(capacity, maxPending, capacity + maxPending + 1);
    var tail := SettlesAfterRead(p, capacity, maxPending);
    assert IsTail(capacity, maxPending, p, tail);
    steps :| LeadsTo(capacity, maxPending, steps, Run(p, tail));
  }

  // ---- A write timeout takes back too much -----------------------------------------------------------------

  const BEGIN := Step(2, BeginWriting)
  const TIME_OUT := Step(3, TimeOutChunk)

  ghost predicate AboutToTimeOut(p: Proxy, capacity: nat, r: nat) {
    && p.running && p.clock <= 3 && p.sensors == SENSORS
    && p.wake == W.WakeLock(capacity + r, [W.Acquire], 1, 0)
    && p.queue.capacity == capacity && p.queue.fmq == Taps(capacity)
    && p.queue.backlog == [Batch(Taps(r), capacity + r)] && p.queue.writer == Blocking(r)
  }

  lemma BeginsWriting(p: Proxy, capacity: nat, maxPending: nat, r: nat)
    requires 0 < r <= capacity && r <= maxPending && Filled(p, capacity, maxPending, capacity + r, [])
    ensures Feasible(p, [BEGIN]) && DisciplinedRun(p, [BEGIN]) && AboutToTimeOut(Run(p, [BEGIN]), capacity, r)
  {
    Before(p, BEGIN, []);
    assert [BEGIN] + [] == [BEGIN];
  }

  lemma TimeOutFrom(p: Proxy, capacity: nat, r: nat)
    requires 0 < r <= capacity && AboutToTimeOut(p, capacity, r)
    ensures && Enabled(p, TIME_OUT) && !Disciplined(p, TIME_OUT)
            && Wakeups(Apply(p, TIME_OUT).queue.fmq, SENSORS) == capacity
            && Apply(p, TIME_OUT).wake.refCount == 0 && !Apply(p, TIME_OUT).wake.Held()
  {
    CountTaps(r);
    CountTaps(capacity);
    SplitTaps(r, r);
    assert Chunk(p.queue) == Taps(r);
    assert FailedWakeups(p.queue, SENSORS) == capacity + r;
  }

  /** Without its condition on write timeouts the conservation law fails. Whenever a batch of wake-up events
      fills the queue and leaves a remainder that fits one chunk, a disciplined run leads to a balanced
      state from which a timeout leaves the whole queue unread, with a count of zero and no OS lock. */
  lemma TimeoutLosesLock(capacity: nat, maxPending: nat, r: nat) returns (steps: seq<Step>, p: Proxy)
    requires 0 < r <= capacity && r <= maxPending
    ensures LeadsTo(capacity, maxPending, steps, p) && Balanced(p)
    ensures Enabled(p, TIME_OUT) && !Disciplined(p, TIME_OUT)
    ensures var end := Apply(p, TIME_OUT);
            Wakeups(end.queue.fmq, SENSORS) == capacity && end.wake.refCount == 0 && !end.wake.Held()
  {
    var filled := Posts(capacity, maxPending, capacity + r);
    BeginsWriting(filled, capacity, maxPending, r);
    p := Run(filled, [BEGIN]);
    assert IsTail(capacity, maxPending, filled, [BEGIN]);
    steps :| LeadsTo(capacity, maxPending, steps, p);
    BalancedThroughout(capacity, maxPending, steps);
    TimeOutFrom(p, capacity, r);
  }

  // ---- A count survives an initialisation ----------------------------------------------------------------

  const STOP := Step(2, Stop)
  const RESTART := Step(3, Restart(1))
  const DROP := Step(4, DropHolder(0))

  lemma StaleDrop(p: Proxy)
    requires p.running && p.clock <= 4 && |p.queue.fmq| <= p.queue.capacity
    requires p.holders == [1] && p.wake == W.WakeLock(1, [W.Acquire], 1, 3)
    ensures Feasible(p, [DROP]) && DisciplinedRun(p, [DROP])
    ensures var end := Run(p, [DROP]);
            end.holders == [] && end.wake.refCount == 1 && end.wake.Held()
  {
    Before(p, DROP, []);
    assert [DROP] + [] == [DROP];
  }

  lemma StopsAndStarts(p: Proxy)
    requires Locked(p, 1, 8)
    ensures Feasible(p, [STOP])
    ensures var p2 := Run(p, [STOP]);
            && Enabled(p2, RESTART) && Fresh(p2.holders, 3) == 0
            && var p3 := Apply(p2, RESTART);
               && p3.running && p3.clock <= 4 && |p3.queue.fmq| <= p3.queue.capacity
               && p3.holders == [1] && p3.wake == W.WakeLock(1, [W.Acquire], 1, 3)
  {
    Before(p, STOP, []);
    assert [STOP] + [] == [STOP];
    FreshOnlyFrom(Apply(p, STOP).holders, 3);
  }

  /** A scoped wake lock is taken, the proxy is initialised again, and the wake lock ends: its count has
      survived as surplus, and the lock is held for nothing. */
  lemma SurvivorHoldsLock()
    ensures var before := [LOCK] + [STOP];
            && Feasible(Start(1, 8), before) && Enabled(Run(Start(1, 8), before), RESTART)
            && Fresh(Run(Start(1, 8), before).holders, 3) == 0
            && var p := Apply(Run(Start(1, 8), before), RESTART);
               && Feasible(p, [DROP]) && DisciplinedRun(p, [DROP])
               && Run(p, [DROP]).holders == []
               && Run(p, [DROP]).wake.refCount == 1 && Run(p, [DROP]).wake.Held()
  {
    Locks(1, 8);
    var p1 := Apply(Start(1, 8), LOCK);
    StopsAndStarts(p1);
    Before(Start(1, 8), LOCK, [STOP]);
    StaleDrop(Apply(Run(p1, [STOP]), RESTART));
  }

  // ---- A charge of zero takes the lock for good --------------------------------------------------------------

  const EXTRA := Step(1, Acknowledge(1))
  const TAKE_EXTRA := Step(1, TakeAck)
  const CHARGE_NOTHING := Step(1, PostCharge([], 0, true))

  lemma ChargesNothing(p: Proxy)
    requires p.running && p.clock <= 1 && |p.queue.fmq| <= p.queue.capacity && p.posting == None
    requires p.wake.refCount == 0
    ensures Feasible(p, [CHARGE_NOTHING])
    ensures Run(p, [CHARGE_NOTHING]).wake.refCount == 0 && Run(p, [CHARGE_NOTHING]).wake.Held()
  {
    Before(p, CHARGE_NOTHING, []);
    assert [CHARGE_NOTHING] + [] == [CHARGE_NOTHING];
  }

  lemma TakesExtra(p: Proxy)
    requires p.running && p.clock <= 1 && |p.queue.fmq| <= p.queue.capacity && p.posting == None
    requires p.wake.refCount == 1 && p.acks == []
    ensures var steps := [EXTRA] + ([TAKE_EXTRA] + [CHARGE_NOTHING]);
            Feasible(p, steps) && Run(p, steps).wake.refCount == 0 && Run(p, steps).wake.Held()
  {
    var p1 := Apply(p, EXTRA);
    assert p1.acks == [1];
    var p2 := Apply(p1, TAKE_EXTRA);
    assert p2.wake.refCount == 0;
    ChargesNothing(p2);
    Before(p1, TAKE_EXTRA, [CHARGE_NOTHING]);
    Before(p, EXTRA, [TAKE_EXTRA] + [CHARGE_NOTHING]);
  }

  /** How a locked batch comes to charge nothing: a wake-up pick-up sensor's event, posted under its lock,
      is filtered out unless its scalar is one. */
  lemma FilteredPickUpChargesNothing(e: Event, subHal: nat, sensors: Sensors)
    requires InfoOf(sensors, Stamp(e, subHal).sensorHandle).sensorType == PickUpGesture && e.scalar != 1.0
    ensures var out := Processed([e], subHal, sensors);
            CHARGE_NOTHING == Step(1, PostCharge(out, Wakeups(out, sensors), true))
  {
    ProcessedEmptyIff([e], subHal, sensors);
  }

  /** A scoped wake lock is taken, the framework acknowledges an event too many, and the holder then posts
      a batch of which nothing is left: the OS lock is held with a count of zero, and in any run without
      another increment it stays so. */
  lemma ZeroChargeLeaksLock(after: seq<Step>)
    requires forall s | s in after :: !MayIncrement(s)
    ensures var steps := [LOCK] + ([EXTRA] + ([TAKE_EXTRA] + [CHARGE_NOTHING]));
            && Feasible(Start(1, 8), steps)
            && var p := Run(Start(1, 8), steps);
               && p.wake.refCount == 0 && p.wake.Held()
               && (Feasible(p, after) ==> Run(p, after).wake.refCount == 0 && Run(p, after).wake.Held())
  {
    var p1 := Apply(Start(1, 8), LOCK);
    TakesExtra(p1);
    Before(Start(1, 8), LOCK, [EXTRA] + ([TAKE_EXTRA] + [CHARGE_NOTHING]));
    var p := Run(Start(1, 8), [LOCK] + ([EXTRA] + ([TAKE_EXTRA] + [CHARGE_NOTHING])));
    if Feasible(p, after) {
      LeakedLockStays(p, after);
    }
  }

  // ---- An initialisation in the tick of a wake lock --------------------------------------------------------

  const STOP_NOW := Step(1, Stop)
  const EXIT_NOW := Step(1, ThreadExit)
  const RESTART_NOW := Step(1, Restart(1))

  /** A scoped wake lock is alive, and nothing holds the lock. */
  ghost predicate TakenOver(p: Proxy) {
    p.running && p.holders == [1] && p.wake.refCount == 0 && !p.wake.Held()
  }

  lemma EndsWithDrop(p: Proxy)
    requires p.running && p.clock <= 1 && |p.queue.fmq| <= p.queue.capacity
    requires p.holders == [1, 1] && p.wake.refCount == 1 && p.wake.resetTime <= 1
    ensures Feasible(p, [UNLOCK])
    ensures TakenOver(Run(p, [UNLOCK]))
  {
    Before(p, UNLOCK, []);
    assert [UNLOCK] + [] == [UNLOCK];
  }

  lemma EndsWithLock(p: Proxy)
    requires p.running && p.clock <= 1 && |p.queue.fmq| <= p.queue.capacity
    requires p.holders == [1] && p.wake.refCount == 0 && p.wake.resetTime <= 1
    ensures var steps := [LOCK] + [UNLOCK];
            Feasible(p, steps) && TakenOver(Run(p, steps))
  {
    EndsWithDrop(Apply(p, LOCK));
    Before(p, LOCK, [UNLOCK]);
  }

  lemma EndsWithRestart(p: Proxy) returns (steps: seq<Step>)
    requires p.running && p.clock <= 1 && |p.queue.fmq| <= p.queue.capacity
    requires p.queue.writer == Idle && p.posting == None
    requires p.holders == [1] && p.wake.refCount == 0
    ensures Feasible(p, steps) && TakenOver(Run(p, steps))
  {
    var p1 := Apply(p, STOP_NOW);
    var p2 := Apply(p1, EXIT_NOW);
    var p3 := Apply(p2, RESTART_NOW);
    EndsWithLock(p3);
    Before(p2, RESTART_NOW, [LOCK] + [UNLOCK]);
    Before(p1, EXIT_NOW, [RESTART_NOW] + ([LOCK] + [UNLOCK]));
    Before(p, STOP_NOW, [EXIT_NOW] + ([RESTART_NOW] + ([LOCK] + [UNLOCK])));
    steps := [STOP_NOW] + ([EXIT_NOW] + ([RESTART_NOW] + ([LOCK] + [UNLOCK])));
  }

  /** The one way in which a scoped wake lock from before a reset is not recognised. One is taken, its count
      given back by an acknowledgement too many, the proxy initialised again and a second one taken, all in
      one tick; then the first one ends, and takes the count that belongs to the second. The second is
      alive, with a count of zero and no OS lock. */
  lemma SameTickRestartLosesLock() returns (steps: seq<Step>)
    ensures Feasible(Start(1, 8), steps) && TakenOver(Run(Start(1, 8), steps))
  {
    Locks(1, 8);
    var p1 := Apply(Start(1, 8), LOCK);
    var p2 := Apply(p1, EXTRA);
    assert p2.acks == [1];
    var p3 := Apply(p2, TAKE_EXTRA);
    var tail := EndsWithRestart(p3);
    Before(p2, TAKE_EXTRA, tail);
    Before(p1, EXTRA, [TAKE_EXTRA] + tail);
    Before(Start(1, 8), LOCK, [EXTRA] + ([TAKE_EXTRA] + tail));
    steps := [LOCK] + ([EXTRA] + ([TAKE_EXTRA] + tail));
  }
}
