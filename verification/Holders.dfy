/** The life of a scoped wake lock, from the step that takes it to the step that gives it back. */
module Holders {
  import opened Wrappers
  import opened EventQueue
  import opened ProxyRuns
  import opened Sequences
  import W = WakeLock

  /** No reset or increment is from the future, and no scoped wake lock is younger than the last increment. */
  ghost predicate Timely(p: Proxy) {
    && 0 <= p.wake.resetTime <= p.clock
    && 0 <= p.wake.timeoutStart <= p.clock
    && forall k | 0 <= k < |p.holders| :: 0 <= p.holders[k] <= p.wake.timeoutStart
  }

  lemma TimelyStep(p: Proxy, s: Step)
    requires Timely(p) && Enabled(p, s)
    ensures Timely(Apply(p, s))
    ensures p.wake.resetTime <= Apply(p, s).wake.resetTime
    ensures p.wake.timeoutStart <= Apply(p, s).wake.timeoutStart
  {
  }

  lemma {:induction false} TimelyInEveryRun(p: Proxy, steps: seq<Step>)
    requires Timely(p) && Feasible(p, steps)
    ensures Timely(Run(p, steps)) && p.wake.resetTime <= Run(p, steps).wake.resetTime
    decreases |steps|
  {
    if steps != [] {
      TimelyStep(p, steps[0]);
      TimelyInEveryRun(Apply(p, steps[0]), steps[1..]);
    }
  }

  predicate TimesOut(p: Proxy, s: Step)
    requires Enabled(p, s)
  {
    s.action.CheckTimeout? && W.DidTimeout(p.wake, s.now, p.timeout)
  }

  /** A timeout of the whole lock reads a clock strictly later than the start of every live scoped wake
      lock, even where the clock stands still between other steps. */
  lemma TimeoutIsLater(p: Proxy, s: Step, k: nat)
    requires Timely(p) && Enabled(p, s) && TimesOut(p, s) && k < |p.holders|
    ensures p.holders[k] < s.now == Apply(p, s).wake.resetTime
  {
  }

  /** Where one step leaves the scoped wake lock at place `k`, unless it drops it. */
  function Moved(s: Step, k: nat): Option<nat> {
    match s.action
    case DropHolder(j) => if j == k then None else if j < k then Some(k - 1) else Some(k)
    case _ => Some(k)
  }

  lemma MovedKeepsStart(p: Proxy, s: Step, k: nat)
    requires Enabled(p, s) && k < |p.holders| && Moved(s, k).Some?
    ensures var j := Moved(s, k).value;
            j < |Apply(p, s).holders| && Apply(p, s).holders[j] == p.holders[k]
  {
  }

  /** Where a run leaves it. */
  function Whereabouts(p: Proxy, steps: seq<Step>, k: nat): Option<nat>
    requires Feasible(p, steps)
    decreases |steps|
  {
    if steps == [] then Some(k)
    else
      match Moved(steps[0], k)
      case None => None
      case Some(j) => Whereabouts(Apply(p, steps[0]), steps[1..], j)
  }

  lemma {:induction false} StartStays(p: Proxy, steps: seq<Step>, k: nat)
    requires Feasible(p, steps) && k < |p.holders| && Whereabouts(p, steps, k).Some?
    ensures var j := Whereabouts(p, steps, k).value;
            j < |Run(p, steps).holders| && Run(p, steps).holders[j] == p.holders[k]
    decreases |steps|
  {
    if steps != [] {
      MovedKeepsStart(p, steps[0], k);
      StartStays(Apply(p, steps[0]), steps[1..], Moved(steps[0], k).value);
    }
  }

  /** A reset after which a scoped wake lock from `start` counts as stale: any timeout of the whole lock, and
      a reset by a stop or a new initialisation once the clock has moved. */
  predicate MakesStale(p: Proxy, s: Step, start: int)
    requires Enabled(p, s)
  {
    TimesOut(p, s) || ((s.action.ThreadExit? || s.action.Restart?) && start < s.now)
  }

  predicate Overtaken(p: Proxy, steps: seq<Step>, start: int)
    requires Feasible(p, steps)
    decreases |steps|
  {
    steps != [] && (MakesStale(p, steps[0], start) || Overtaken(Apply(p, steps[0]), steps[1..], start))
  }

  lemma StaleStepIff(p: Proxy, s: Step, start: int)
    requires Timely(p) && Enabled(p, s) && p.wake.resetTime <= start <= p.wake.timeoutStart
    ensures start < Apply(p, s).wake.resetTime <==> MakesStale(p, s, start)
  {
  }

  lemma {:induction false} StaleIff(p: Proxy, steps: seq<Step>, start: int)
    requires Timely(p) && Feasible(p, steps) && p.wake.resetTime <= start <= p.wake.timeoutStart
    ensures start < Run(p, steps).wake.resetTime <==> Overtaken(p, steps, start)
    decreases |steps|
  {
    if steps != [] {
      var p', tail := Apply(p, steps[0]), steps[1..];
      TimelyStep(p, steps[0]);
      StaleStepIff(p, steps[0], start);
      TimelyInEveryRun(p', tail);
      if p'.wake.resetTime <= start {
        StaleIff(p', tail, start);
      }
    }
  }

  lemma DropEffect(p: Proxy, s: Step)
    requires Timely(p) && Enabled(p, s) && s.action.DropHolder?
    ensures var start, w, w' := p.holders[s.action.k], p.wake, Apply(p, s).wake;
            if !p.running || start < w.resetTime then w' == w
            else w'.refCount == if w.refCount > 0 then w.refCount - 1 else 0
  {
  }

  /** The fate of a scoped wake lock in any run with a clock that does not go back. It is taken, any steps
      follow that leave it alive, and it ends: it leaves the wake lock alone if a timeout of the whole lock
      came in between, whatever the clock read, or a stop or new initialisation with a strictly later
      clock; and otherwise takes exactly one off a count that is not zero. While the threads are stopped
      nothing changes. */
  lemma LifeOfHolder(p: Proxy, lock: Step, steps: seq<Step>, drop: Step)
    requires Timely(p) && p.running && Enabled(p, lock) && lock.action.LockHolder?
    requires Feasible(Apply(p, lock), steps)
    requires Enabled(Run(Apply(p, lock), steps), drop) && drop.action.DropHolder?
    requires Whereabouts(Apply(p, lock), steps, |p.holders|) == Some(drop.action.k)
    ensures var end := Run(Apply(p, lock), steps);
            var w' := Apply(end, drop).wake;
            if !end.running || Overtaken(Apply(p, lock), steps, lock.now) then w' == end.wake
            else w'.refCount == if end.wake.refCount > 0 then end.wake.refCount - 1 else 0
  {
    var p1 := Apply(p, lock);
    TimelyStep(p, lock);
    StartStays(p1, steps, |p.holders|);
    StaleIff(p1, steps, lock.now);
    TimelyInEveryRun(p1, steps);
    DropEffect(Run(p1, steps), drop);
  }

  /** No scoped wake lock that was alive at a timeout ever changes the wake lock again. */
  lemma TimeoutEndsHolders(p: Proxy, check: Step, steps: seq<Step>, k: nat, drop: Step)
    requires Timely(p) && Enabled(p, check) && TimesOut(p, check) && k < |p.holders|
    requires Feasible(Apply(p, check), steps)
    requires Enabled(Run(Apply(p, check), steps), drop) && drop.action.DropHolder?
    requires Whereabouts(Apply(p, check), steps, k) == Some(drop.action.k)
    ensures Apply(Run(Apply(p, check), steps), drop).wake == Run(Apply(p, check), steps).wake
  {
    var p1 := Apply(p, check);
    TimeoutIsLater(p, check, k);
    TimelyStep(p, check);
    StartStays(p1, steps, k);
    TimelyInEveryRun(p1, steps);
    DropEffect(Run(p1, steps), drop);
  }
}
