/** The reference-counted OS wake lock, and what every run of its critical sections keeps. */
module WakeLock {
  import opened Wrappers

  datatype OsCall = Acquire | Release

  /** `calls` is every call made to the OS so far, oldest first. */
  datatype WakeLock = WakeLock(refCount: nat, calls: seq<OsCall>, timeoutStart: int, resetTime: int) {
    predicate Held() {
      calls != [] && calls[|calls| - 1] == Acquire
    }
  }

  /** The start time that stands for "use the last reset time". */
  const NO_START := -1

  const UNUSED := WakeLock(0, [], 0, 0)

  function Increment(w: WakeLock, delta: nat, now: int): WakeLock {
    w.(calls := if w.refCount == 0 then w.calls + [Acquire] else w.calls,
       timeoutStart := now,
       refCount := w.refCount + delta)
  }

  function Decrement(w: WakeLock, delta: nat, start: int): WakeLock {
    var start := if start == NO_START then w.resetTime else start;
    if w.refCount == 0 || start < w.resetTime then w
    else
      var left := w.refCount - Min(w.refCount, delta);
      w.(refCount := left, calls := if left == 0 then w.calls + [Release] else w.calls)
  }

  /** A reset clears the count only while the proxy's threads run; the reset time moves either way. */
  function Reset(w: WakeLock, running: bool, now: int): WakeLock {
    (if running then Decrement(w, w.refCount, NO_START) else w).(resetTime := now)
  }

  predicate DidTimeout(w: WakeLock, now: int, timeout: nat) {
    now - w.timeoutStart > timeout
  }

  function TimeLeft(w: WakeLock, now: int, timeout: nat): int {
    timeout - (now - w.timeoutStart)
  }

  /** The wake-lock thread's locked section: it sleeps while the count is zero, and resets on a timeout. */
  function Iterate(w: WakeLock, running: bool, now: int, timeout: nat): WakeLock {
    if w.refCount > 0 && DidTimeout(w, now, timeout) then Reset(w, running, now) else w
  }

  // ---- Runs -----------------------------------------------------------------------------------

  /** One critical section. An increment or decrement whose running check failed is no section at all;
      the flag of the other two is what the decrement inside them reads, which may differ from any
      earlier reading. */
  datatype Action =
    | Grow(delta: nat)
    | Shrink(delta: nat, start: int)
    | ResetNow(running: bool)
    | Check(running: bool)

  datatype Section = Section(now: int, action: Action)

  function Apply(w: WakeLock, s: Section, timeout: nat): WakeLock {
    match s.action
    case Grow(delta) => Increment(w, delta, s.now)
    case Shrink(delta, start) => Decrement(w, delta, start)
    case ResetNow(running) => Reset(w, running, s.now)
    case Check(running) => Iterate(w, running, s.now, timeout)
  }

  function Run(w: WakeLock, run: seq<Section>, timeout: nat): WakeLock {
    if run == [] then w else Apply(Run(w, run[..|run| - 1], timeout), run[|run| - 1], timeout)
  }

  /** Both clocks of the wake lock are in the past and time does not go back. */
  ghost predicate Monotone(w: WakeLock, run: seq<Section>) {
    && 0 <= w.resetTime && 0 <= w.timeoutStart
    && (forall i | 0 <= i < |run| :: w.resetTime <= run[i].now && w.timeoutStart <= run[i].now)
    && forall i, j | 0 <= i < j < |run| :: run[i].now <= run[j].now
  }

  // ---- The OS lock follows the count ------------------------------------------------------------

  ghost predicate HeldWhileCounted(w: WakeLock) {
    w.refCount > 0 ==> w.Held()
  }

  ghost predicate Alternating(calls: seq<OsCall>) {
    forall i | 0 <= i < |calls| :: calls[i] == if i % 2 == 0 then Acquire else Release
  }

  /** The lock is held exactly while the count is positive, and the OS sees strictly alternating calls. */
  ghost predicate Exact(w: WakeLock) {
    Alternating(w.calls) && (w.Held() <==> w.refCount > 0)
  }

  /** Whatever the sections and whatever the clock: a positive count means the lock is held. */
  lemma {:induction false} CountImpliesHeld(w: WakeLock, run: seq<Section>, timeout: nat)
    requires HeldWhileCounted(w)
    ensures HeldWhileCounted(Run(w, run, timeout))
  {
    if run != [] {
      CountImpliesHeld(w, run[..|run| - 1], timeout);
    }
  }

  /** A section keeps an exact lock exact unless it is an increment that leaves the count at zero, and
      mends no other. */
  lemma SectionExactIff(w: WakeLock, s: Section, timeout: nat)
    requires HeldWhileCounted(w)
    ensures Exact(Apply(w, s, timeout))
            <==> Exact(w) && (s.action.Grow? ==> Apply(w, s, timeout).refCount > 0)
  {
    var w' := Apply(w, s, timeout);
    if !Alternating(w.calls) {
      var i :| 0 <= i < |w.calls| && w.calls[i] != if i % 2 == 0 then Acquire else Release;
      assert w'.calls[i] == w.calls[i];
    } else if !Exact(w) && w'.calls != w.calls {
      var n := |w.calls|;
      assert w.calls[n - 1] == Acquire && w'.calls[n] == Acquire;
    }
  }

  ghost predicate GrowthIsPositive(run: seq<Section>) {
    forall i | 0 <= i < |run| && run[i].action.Grow? :: run[i].action.delta > 0
  }

  /** When every increment adds something, the lock is held exactly while the count is positive, and
      acquire and release calls strictly alternate. */
  lemma {:induction false} HeldIffCounted(w: WakeLock, run: seq<Section>, timeout: nat)
    requires Exact(w) && GrowthIsPositive(run)
    ensures Exact(Run(w, run, timeout))
  {
    if run != [] {
      HeldIffCounted(w, run[..|run| - 1], timeout);
      SectionExactIff(Run(w, run[..|run| - 1], timeout), run[|run| - 1], timeout);
    }
  }

  /** The increment of section `i`, if it is one, leaves something to give back. */
  ghost predicate GrowthCounts(w: WakeLock, run: seq<Section>, i: int, timeout: nat)
    requires 0 <= i < |run|
  {
    run[i].action.Grow? ==> Run(w, run[..i + 1], timeout).refCount > 0
  }

  lemma GrowthCountsInPrefix(w: WakeLock, run: seq<Section>, i: int, timeout: nat)
    requires 0 <= i < |run| - 1
    ensures GrowthCounts(w, run, i, timeout) == GrowthCounts(w, run[..|run| - 1], i, timeout)
  {
    assert run[..i + 1] == run[..|run| - 1][..i + 1];
  }

  /** In any run: the lock is held exactly while the count is positive, with strictly alternating calls,
      if and only if no increment of the run has left the count at zero. */
  lemma {:induction false} ExactIff(w: WakeLock, run: seq<Section>, timeout: nat)
    requires Exact(w)
    ensures Exact(Run(w, run, timeout)) <==> forall i | 0 <= i < |run| :: GrowthCounts(w, run, i, timeout)
  {
    if run != [] {
      var n := |run| - 1;
      ExactIff(w, run[..n], timeout);
      CountImpliesHeld(w, run[..n], timeout);
      SectionExactIff(Run(w, run[..n], timeout), run[n], timeout);
      forall i | 0 <= i < n ensures GrowthCounts(w, run, i, timeout) == GrowthCounts(w, run[..n], i, timeout) {
        GrowthCountsInPrefix(w, run, i, timeout);
      }
      assert run[..n + 1] == run;
      assert GrowthCounts(w, run, n, timeout)
             <==> (run[n].action.Grow? ==> Apply(Run(w, run[..n], timeout), run[n], timeout).refCount > 0);
      assert (forall i | 0 <= i < |run| :: GrowthCounts(w, run, i, timeout))
             <==> GrowthCounts(w, run, n, timeout) && forall i | 0 <= i < n :: GrowthCounts(w, run, i, timeout);
    }
  }

  // ---- Stale holders ------------------------------------------------------------------------------

  /** Section `j` of the run sets the reset time. */
  ghost predicate ResetsAt(w: WakeLock, run: seq<Section>, j: int, timeout: nat)
    requires 0 <= j < |run|
  {
    run[j].action.ResetNow? ||
    (run[j].action.Check?
     && Run(w, run[..j], timeout).refCount > 0
     && DidTimeout(Run(w, run[..j], timeout), run[j].now, timeout))
  }

  lemma ResetsInPrefix(w: WakeLock, run: seq<Section>, j: int, timeout: nat)
    requires 0 <= j < |run| - 1
    ensures ResetsAt(w, run, j, timeout) == ResetsAt(w, run[..|run| - 1], j, timeout)
  {
    assert run[..j] == run[..|run| - 1][..j];
  }

  /** One section sets the reset time to its own reading, or leaves it. */
  lemma SectionResetTime(w: WakeLock, run: seq<Section>, timeout: nat)
    requires run != []
    ensures Run(w, run, timeout).resetTime
            == if ResetsAt(w, run, |run| - 1, timeout) then run[|run| - 1].now
               else Run(w, run[..|run| - 1], timeout).resetTime
  {
  }

  /** The reset time is that of the run's last reset, if any. */
  lemma {:induction false} ResetTimeIsLastReset(w: WakeLock, run: seq<Section>, timeout: nat)
    requires Monotone(w, run)
    ensures forall j | 0 <= j < |run| && ResetsAt(w, run, j, timeout) :: run[j].now <= Run(w, run, timeout).resetTime
    ensures Run(w, run, timeout).resetTime == w.resetTime
            || exists j :: 0 <= j < |run| && ResetsAt(w, run, j, timeout)
                           && run[j].now == Run(w, run, timeout).resetTime
    ensures w.resetTime <= Run(w, run, timeout).resetTime
    ensures run != [] ==> Run(w, run, timeout).resetTime <= run[|run| - 1].now
  {
    if run != [] {
      var n := |run| - 1;
      var before := run[..n];
      ResetTimeIsLastReset(w, before, timeout);
      SectionResetTime(w, run, timeout);
      forall j | 0 <= j < n ensures ResetsAt(w, run, j, timeout) == ResetsAt(w, before, j, timeout) {
        ResetsInPrefix(w, run, j, timeout);
      }
      if !ResetsAt(w, run, n, timeout) && Run(w, before, timeout).resetTime != w.resetTime {
        var j :| 0 <= j < n && ResetsAt(w, before, j, timeout) && before[j].now == Run(w, before, timeout).resetTime;
        assert ResetsAt(w, run, j, timeout);
      }
    }
  }

  /** A holder that incremented in section `i` and gives back at the end of the run: its decrement is
      ignored exactly when a reset read a strictly later clock since, and otherwise takes its delta,
      clamped at zero. */
  lemma HolderFate(w: WakeLock, run: seq<Section>, i: int, delta: nat, timeout: nat)
    requires Monotone(w, run)
    requires 0 <= i < |run| && run[i].action.Grow?
    ensures var end := Run(w, run, timeout);
            var stale := exists j :: i < j < |run| && ResetsAt(w, run, j, timeout) && run[i].now < run[j].now;
            if stale then Decrement(end, delta, run[i].now) == end
            else Decrement(end, delta, run[i].now).refCount
                 == if delta <= end.refCount then end.refCount - delta else 0
  {
    ResetTimeIsLastReset(w, run, timeout);
    var end := Run(w, run, timeout);
    if run[i].now < end.resetTime {
      var j :| 0 <= j < |run| && ResetsAt(w, run, j, timeout) && run[j].now == end.resetTime;
      assert i < j;
    } else {
      assert forall j | i < j < |run| && ResetsAt(w, run, j, timeout) :: run[j].now <= end.resetTime;
    }
  }

  /** With a strictly increasing clock the fate depends on the order of sections alone. */
  lemma HolderFateStrictClock(w: WakeLock, run: seq<Section>, i: int, delta: nat, timeout: nat)
    requires Monotone(w, run)
    requires forall j, k | 0 <= j < k < |run| :: run[j].now < run[k].now
    requires 0 <= i < |run| && run[i].action.Grow?
    ensures var end := Run(w, run, timeout);
            if exists j :: i < j < |run| && ResetsAt(w, run, j, timeout)
            then Decrement(end, delta, run[i].now) == end
            else Decrement(end, delta, run[i].now).refCount
                 == if delta <= end.refCount then end.refCount - delta else 0
  {
    HolderFate(w, run, i, delta, timeout);
  }

  /** A reset that finds the threads stopped leaves the whole count in place. */
  lemma ResetWhileStoppedKeepsCount(w: WakeLock, now: int)
    ensures Reset(w, false, now).refCount == w.refCount
    ensures Reset(w, true, now).refCount == 0
    ensures Reset(w, false, now).calls == w.calls
  {
  }

  // ---- Bounded hold ---------------------------------------------------------------------------------

  /** The timeout runs from the last increment. */
  lemma {:induction false} TimeoutStartsAtLastGrow(w: WakeLock, run: seq<Section>, timeout: nat)
    requires Monotone(w, run)
    ensures var start := Run(w, run, timeout).timeoutStart;
            && (forall i | 0 <= i < |run| && run[i].action.Grow? :: run[i].now <= start)
            && (start == w.timeoutStart || exists i :: 0 <= i < |run| && run[i].action.Grow? && run[i].now == start)
            && w.timeoutStart <= start
            && (run != [] ==> start <= run[|run| - 1].now)
  {
    if run != [] {
      var before := run[..|run| - 1];
      TimeoutStartsAtLastGrow(w, before, timeout);
      if Run(w, run, timeout).timeoutStart != w.timeoutStart && !run[|run| - 1].action.Grow? {
        var i :| 0 <= i < |before| && before[i].action.Grow? && before[i].now == Run(w, before, timeout).timeoutStart;
        assert run[i].action.Grow?;
      }
    }
  }

  lemma {:induction false} ZeroWithoutGrowth(w: WakeLock, run: seq<Section>, timeout: nat)
    requires w.refCount == 0
    requires forall i | 0 <= i < |run| :: !run[i].action.Grow?
    ensures Run(w, run, timeout).refCount == 0 && Run(w, run, timeout).calls == w.calls
  {
    if run != [] {
      ZeroWithoutGrowth(w, run[..|run| - 1], timeout);
    }
  }

  lemma {:induction false} RunConcat(w: WakeLock, a: seq<Section>, b: seq<Section>, timeout: nat)
    ensures Run(w, a + b, timeout) == Run(Run(w, a, timeout), b, timeout)
  {
    if b == [] {
      assert a + b == a;
    } else {
      RunConcat(w, a, b[..|b| - 1], timeout);
      assert (a + b)[..|a + b| - 1] == a + b[..|b| - 1];
    }
  }

  lemma LateCheckClears(w: WakeLock, before: seq<Section>, now: int, timeout: nat)
    requires Monotone(w, before)
    requires now - w.timeoutStart > timeout
    requires forall i | 0 <= i < |before| && before[i].action.Grow? :: now - before[i].now > timeout
    ensures var w1 := Run(w, before, timeout);
            var w2 := Apply(w1, Section(now, Check(true)), timeout);
            w2.refCount == 0 && (w2.Held() <==> w1.refCount == 0 && w1.Held())
  {
    TimeoutStartsAtLastGrow(w, before, timeout);
  }

  /** Bounded hold. In any run, whatever state it starts from and whatever its increments add: if the
      wake-lock thread completes one iteration with the threads running, more than the timeout after the
      last increment before it, and nothing increments afterwards, then the run ends with a count of zero;
      and with the OS lock released, unless the iteration found it held with no count behind it. */
  lemma BoundedHold(w: WakeLock, run: seq<Section>, k: int, timeout: nat)
    requires Monotone(w, run)
    requires 0 <= k < |run| && run[k].action == Check(true)
    requires run[k].now - w.timeoutStart > timeout
    requires forall i | 0 <= i < k && run[i].action.Grow? :: run[k].now - run[i].now > timeout
    requires forall i | k < i < |run| :: !run[i].action.Grow?
    ensures Run(w, run, timeout).refCount == 0
    ensures Run(w, run, timeout).Held() <==> Run(w, run[..k], timeout).refCount == 0 && Run(w, run[..k], timeout).Held()
  {
    RunSplits(w, run, k, timeout);
    LateCheckClears(w, run[..k], run[k].now, timeout);
    ZeroWithoutGrowth(Apply(Run(w, run[..k], timeout), run[k], timeout), run[k + 1..], timeout);
  }

  lemma RunSplits(w: WakeLock, run: seq<Section>, k: nat, timeout: nat)
    requires k < |run|
    ensures Run(w, run, timeout) == Run(Apply(Run(w, run[..k], timeout), run[k], timeout), run[k + 1..], timeout)
  {
    assert run[..k + 1][..k] == run[..k];
    assert run[..k + 1] + run[k + 1..] == run;
    RunConcat(w, run[..k + 1], run[k + 1..], timeout);
  }

  /** The lock times out strictly after the timeout since the last increment, and what is left to wait lasts
      until then. An iteration that does not time out changes nothing, and its wait is within the timeout;
      it is zero exactly when the timeout has just been reached. */
  lemma TimeLeftInRange(w: WakeLock, run: seq<Section>, running: bool, now: int, timeout: nat)
    requires Monotone(w, run + [Section(now, Check(running))])
    ensures var end := Run(w, run, timeout);
            && (DidTimeout(end, now, timeout) <==> now > end.timeoutStart + timeout)
            && now + TimeLeft(end, now, timeout) == end.timeoutStart + timeout
            && (!DidTimeout(end, now, timeout) ==>
              && Iterate(end, running, now, timeout) == end
              && 0 <= TimeLeft(end, now, timeout) <= timeout
              && (TimeLeft(end, now, timeout) == 0 <==> now == end.timeoutStart + timeout))
  {
    var all := run + [Section(now, Check(running))];
    assert all[|run|].now == now;
    assert forall i | 0 <= i < |run| :: all[i] == run[i];
    assert Monotone(w, run);
    TimeoutStartsAtLastGrow(w, run, timeout);
    if run != [] {
      assert all[|run| - 1].now <= all[|run|].now;
    }
  }
}
