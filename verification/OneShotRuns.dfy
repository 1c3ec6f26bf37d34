/** The one-shot sensors: a thread that polls without its lock, against concurrent activation and mode
    changes that interrupt it through a pipe to itself. */
module OneShotRuns {
  import opened OperationModes

  /** Where the run thread is between its locked sections: waiting on the condition variable, inside
      `poll`, back from it with what it reported but not yet locked, or finished. */
  datatype Poller =
    | Parked
    | InPoll
    | Returned(pipeReady: bool, deviceReady: bool)
    | PollFailed
    | Finished

  /** `pipe` counts the bytes in the pipe; `storing` the mode calls that have stored their mode but not
      yet written to the pipe. The last four count disabled-to-enabled transitions, events posted, and
      bytes written and read. */
  datatype State = State(
    enabled: bool,
    mode: Mode,
    stopped: bool,
    pipe: nat,
    poller: Poller,
    storing: nat,
    activations: nat,
    posted: nat,
    written: nat,
    drained: nat)

  const INITIAL := State(false, Normal, false, 0, Parked, 0, 0, 0, 0, 0)

  datatype Step =
    | Activate(enable: bool)
    | StoreMode(mode: Mode)
    | InterruptAfterStore
    | Resume
    | PollReturns(deviceReady: bool, other: bool)
    | PollBreaks
    | Handle(reading: bool)

  predicate Enabled(s: State, step: Step) {
    match step
    case Activate(_) => true
    case StoreMode(_) => true
    case InterruptAfterStore => s.storing > 0
    case Resume => s.poller.Parked? && ((s.enabled && s.mode == Normal) || s.stopped)
    case PollReturns(deviceReady, other) => s.poller.InPoll? && (s.pipe > 0 || deviceReady || other)
    case PollBreaks => s.poller.InPoll?
    case Handle(_) => s.poller.PollFailed? || (s.poller.Returned? && (s.poller.pipeReady ==> s.pipe > 0))
  }

  /** The top of the loop: leave, go to sleep, or release the lock and poll. */
  function LoopTop(s: State): State {
    s.(poller := if s.stopped then Finished else if !s.enabled || s.mode == DataInjection then Parked else InPoll)
  }

  function Interrupt(s: State): State {
    s.(pipe := s.pipe + 1, written := s.written + 1)
  }

  function Apply(s: State, step: Step): State
    requires Enabled(s, step)
  {
    match step
    case Activate(enable) =>
      if s.enabled == enable then s
      else Interrupt(s.(enabled := enable, activations := s.activations + if enable then 1 else 0))
    case StoreMode(mode) => s.(mode := mode, storing := s.storing + 1)
    case InterruptAfterStore => Interrupt(s.(storing := s.storing - 1))
    case Resume => LoopTop(s)
    case PollReturns(deviceReady, _) => s.(poller := Returned(s.pipe > 0, deviceReady))
    case PollBreaks => s.(poller := PollFailed)
    case Handle(reading) =>
      if s.poller.PollFailed? then LoopTop(s.(stopped := true))
      else if s.poller.deviceReady && reading then LoopTop(s.(enabled := false, posted := s.posted + 1))
      else if s.poller.pipeReady then LoopTop(s.(pipe := s.pipe - 1, drained := s.drained + 1))
      else LoopTop(s)
  }

  predicate Feasible(s: State, steps: seq<Step>)
    decreases |steps|
  {
    steps == [] || (Enabled(s, steps[0]) && Feasible(Apply(s, steps[0]), steps[1..]))
  }

  function Run(s: State, steps: seq<Step>): State
    requires Feasible(s, steps)
    decreases |steps|
  {
    if steps == [] then s else Run(Apply(s, steps[0]), steps[1..])
  }

  // ---- What the thread does with a poll ---------------------------------------------------------------

  /** A handled poll, enabled or not. It posts exactly if the device was ready and reads true, and then
      disables the sensor; otherwise it takes one byte exactly if the poll reported the pipe; a failed poll
      stops the thread. Then the thread ends if stopped, polls again if enabled and in normal mode, and
      sleeps otherwise. */
  lemma HandledPoll(s: State, reading: bool)
    requires Enabled(s, Handle(reading))
    ensures var s' := Apply(s, Handle(reading));
            var posts := s.poller.Returned? && s.poller.deviceReady && reading;
            var reads' := s.poller.Returned? && s.poller.pipeReady && !posts;
            && s'.posted == s.posted + (if posts then 1 else 0)
            && s'.enabled == (s.enabled && !posts)
            && s'.pipe == s.pipe - (if reads' then 1 else 0)
            && s'.drained == s.drained + (if reads' then 1 else 0)
            && s'.stopped == (s.stopped || s.poller.PollFailed?)
            && s'.mode == s.mode && s'.storing == s.storing
            && s'.activations == s.activations && s'.written == s.written
            && s'.poller == if s'.stopped then Finished
                            else if s'.enabled && s'.mode == Normal then InPoll else Parked
  {
  }

  /** A sleeping thread wakes exactly when it has something to do, and then does it: it ends or polls. */
  lemma ResumeIff(s: State)
    ensures Enabled(s, Resume) <==> s.poller.Parked? && (s.stopped || (s.enabled && s.mode == Normal))
    ensures Enabled(s, Resume) ==> Apply(s, Resume) == s.(poller := if s.stopped then Finished else InPoll)
  {
  }

  /** `n` polls that end by the pipe alone, each of them handled. */
  function QuietRounds(n: nat, reading: bool): seq<Step> {
    if n == 0 then [] else [PollReturns(false, false)] + ([Handle(reading)] + QuietRounds(n - 1, reading))
  }

  /** With no calls and a silent device, each round of an armed thread takes one byte out of the pipe, and so
      the pipe is empty after as many rounds as it held bytes; then nothing ends the next poll. */
  lemma {:induction false} QuietRoundsDrainPipe(s: State, n: nat, reading: bool)
    requires s.poller.InPoll? && s.enabled && s.mode == Normal && !s.stopped
    requires n <= s.pipe
    ensures Feasible(s, QuietRounds(n, reading))
    ensures Run(s, QuietRounds(n, reading)) == s.(pipe := s.pipe - n, drained := s.drained + n)
    ensures n == s.pipe ==> !Enabled(Run(s, QuietRounds(n, reading)), PollReturns(false, false))
    decreases n
  {
    if n > 0 {
      var tail := QuietRounds(n - 1, reading);
      var s1 := Apply(s, PollReturns(false, false));
      var s2 := Apply(s1, Handle(reading));
      HandledPoll(s1, reading);
      QuietRoundsDrainPipe(s2, n - 1, reading);
      RunUnfolds(s1, Handle(reading), tail);
      RunUnfolds(s, PollReturns(false, false), [Handle(reading)] + tail);
    }
  }

  // ---- One event for each activation ----------------------------------------------------------------

  predicate Polling(s: State) {
    s.poller.InPoll? || s.poller.Returned? || s.poller.PollFailed?
  }

  /** Whether the sensor may still owe an event: it is enabled, or a poll is under way. */
  function Armed(s: State): nat {
    if s.enabled || Polling(s) then 1 else 0
  }

  /** In every run segment, whatever the interleaving, the events posted and the one that may still be
      owed never exceed the activations and the one that was owed at the start. */
  lemma {:induction false} OneShot(s: State, steps: seq<Step>)
    requires Feasible(s, steps)
    ensures var end := Run(s, steps);
            (end.posted - s.posted) + Armed(end) <= (end.activations - s.activations) + Armed(s)
    decreases |steps|
  {
    if steps != [] {
      OneShotStep(s, steps[0]);
      OneShot(Apply(s, steps[0]), steps[1..]);
    }
  }

  lemma OneShotStep(s: State, step: Step)
    requires Enabled(s, step)
    ensures var s' := Apply(s, step);
            (s'.posted - s.posted) + Armed(s') <= (s'.activations - s.activations) + Armed(s)
  {
  }

  /** From the start: never more events than activations, and one fewer while the sensor is armed. */
  lemma OneShotFromStart(steps: seq<Step>)
    requires Feasible(INITIAL, steps)
    ensures Run(INITIAL, steps).posted + Armed(Run(INITIAL, steps)) <= Run(INITIAL, steps).activations
  {
    OneShot(INITIAL, steps);
  }

  /** The event that an activation owes may be posted after the sensor has been deactivated again: the
      thread does not look at the flag between its poll and its post. */
  lemma DeactivationCanLoseRace()
    ensures var steps := [Activate(true), Resume, PollReturns(true, false), Activate(false), Handle(true)];
            && Feasible(INITIAL, steps)
            && Feasible(INITIAL, steps[..4])
            && !Run(INITIAL, steps[..4]).enabled && Run(INITIAL, steps[..4]).posted == 0
            && Run(INITIAL, steps).posted == 1
  {
    var s1 := Apply(INITIAL, Activate(true));
    var s2 := Apply(s1, Resume);
    var s3 := Apply(s2, PollReturns(true, false));
    var s4 := Apply(s3, Activate(false));
    var steps := [Activate(true), Resume, PollReturns(true, false), Activate(false), Handle(true)];
    RunUnfolds(INITIAL, steps[0], steps[1..]);
    RunUnfolds(s1, steps[1], steps[2..]);
    RunUnfolds(s2, steps[2], steps[3..]);
    RunUnfolds(s3, steps[3], steps[4..]);
    RunUnfolds(s4, steps[4], []);
    var four := steps[..4];
    RunUnfolds(INITIAL, four[0], four[1..]);
    RunUnfolds(s1, four[1], four[2..]);
    RunUnfolds(s2, four[2], four[3..]);
    RunUnfolds(s3, four[3], []);
  }

  lemma RunUnfolds(s: State, step: Step, steps: seq<Step>)
    requires Enabled(s, step)
    ensures Feasible(s, [step] + steps) <==> Feasible(Apply(s, step), steps)
    ensures Feasible(Apply(s, step), steps) ==> Run(s, [step] + steps) == Run(Apply(s, step), steps)
  {
    assert ([step] + steps)[1..] == steps;
  }

  // ---- Interrupts are not lost -------------------------------------------------------------------------

  /** The thread may only stay inside `poll` while it has reason to, or while something will end it. */
  ghost predicate InterruptPending(s: State) {
    && (s.poller.InPoll? && (!s.enabled || s.mode != Normal) ==> s.pipe > 0 || s.storing > 0)
    && (s.poller.Returned? && s.poller.pipeReady ==> s.pipe > 0)
    && s.written == s.pipe + s.drained
  }

  /** In every run: a poll that should end finds a byte in the pipe, or a mode call is about to write one;
      the read of the pipe, made under the lock, never blocks; and every byte is read at most once. */
  lemma {:induction false} NoLostInterrupt(s: State, steps: seq<Step>)
    requires InterruptPending(s) && Feasible(s, steps)
    ensures InterruptPending(Run(s, steps))
    decreases |steps|
  {
    if steps != [] {
      NoLostInterrupt(Apply(s, steps[0]), steps[1..]);
    }
  }

  predicate ShouldPark(s: State) {
    s.poller.InPoll? && (!s.enabled || s.mode != Normal) && s.storing == 0
  }

  /** A poll that returns now and is then handled leaves the thread asleep or finished, with one byte read
      or one event posted. */
  predicate ParksInTwoSteps(s: State, deviceReady: bool, reading: bool) {
    && Enabled(s, PollReturns(deviceReady, false))
    && var s1 := Apply(s, PollReturns(deviceReady, false));
       && Enabled(s1, Handle(reading))
       && var s2 := Apply(s1, Handle(reading));
          && (s2.poller.Parked? || s2.poller.Finished?)
          && s2.posted + s2.drained == s.posted + s.drained + 1
  }

  lemma PendingThreadParks(s: State, deviceReady: bool, reading: bool)
    requires InterruptPending(s) && ShouldPark(s)
    ensures ParksInTwoSteps(s, deviceReady, reading)
  {
  }

  /** In every run: a polling thread that should stop, with no call in flight, can return at once, and
      two steps of its own put it to sleep or end it. */
  lemma DisabledThreadParks(steps: seq<Step>, deviceReady: bool, reading: bool)
    requires Feasible(INITIAL, steps) && ShouldPark(Run(INITIAL, steps))
    ensures ParksInTwoSteps(Run(INITIAL, steps), deviceReady, reading)
  {
    NoLostInterrupt(INITIAL, steps);
    PendingThreadParks(Run(INITIAL, steps), deviceReady, reading);
  }

  // ---- Posting after deactivation ----------------------------------------------------------------------

  /** From here on the sensor posts again although nobody enables it. */
  ghost predicate MayPostUnasked(s: State) {
    exists steps :: Feasible(s, steps) && Activate(true) !in steps && Run(s, steps).posted > s.posted
  }

  /** A poll is under way that the device may end, or that it has ended. */
  predicate PollMayReport(s: State) {
    s.poller.InPoll? || (s.poller.Returned? && s.poller.deviceReady)
  }

  /** A disabled sensor without such a poll stays so, and posts nothing, until it is enabled. */
  lemma {:induction false} SilentUntilEnabled(s: State, steps: seq<Step>)
    requires Feasible(s, steps) && Activate(true) !in steps
    requires !s.enabled && !PollMayReport(s)
    ensures Run(s, steps).posted == s.posted
    decreases |steps|
  {
    if steps != [] {
      assert steps[0] != Activate(true);
      SilentUntilEnabled(Apply(s, steps[0]), steps[1..]);
    }
  }

  lemma ReadyPollPosts(s: State)
    requires InterruptPending(s) && s.poller.Returned? && s.poller.deviceReady
    ensures Feasible(s, [Handle(true)]) && Run(s, [Handle(true)]).posted == s.posted + 1
  {
    RunUnfolds(s, Handle(true), []);
    assert [Handle(true)] + [] == [Handle(true)];
  }

  /** No event after deactivation, exactly when: a disabled sensor may still post, with no activation in
      between, if and only if its thread is inside `poll` or back from it with the device ready. */
  lemma LatePostIff(s: State)
    requires InterruptPending(s) && !s.enabled
    ensures MayPostUnasked(s) <==> PollMayReport(s)
  {
    if PollMayReport(s) {
      var steps := if s.poller.InPoll? then [PollReturns(true, false), Handle(true)] else [Handle(true)];
      if s.poller.InPoll? {
        var s' := Apply(s, PollReturns(true, false));
        ReadyPollPosts(s');
        RunUnfolds(s, PollReturns(true, false), [Handle(true)]);
        assert steps == [PollReturns(true, false)] + [Handle(true)];
      } else {
        ReadyPollPosts(s);
      }
      assert Feasible(s, steps) && Activate(true) !in steps && Run(s, steps).posted > s.posted;
    } else {
      forall steps | Feasible(s, steps) && Activate(true) !in steps ensures Run(s, steps).posted == s.posted {
        SilentUntilEnabled(s, steps);
      }
    }
  }
}
