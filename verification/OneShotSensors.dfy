/** A one-shot sensor object, the under-display fingerprint and single-tap sensors alike: its fields
    change in place, one method for each step of a run. */
module OneShotSensors {
  import opened OneShotRuns
  import opened OperationModes

  class OneShotSensor {
    var isEnabled: bool
    var mode: Mode
    var stopThread: bool
    var pipe: nat
    var poller: Poller

    // Calls in flight, and what has happened so far.
    ghost var storing: nat
    ghost var activations: nat
    ghost var posted: nat
    ghost var written: nat
    ghost var drained: nat

    ghost function Now(): State
      reads this
    {
      State(isEnabled, mode, stopThread, pipe, poller, storing, activations, posted, written, drained)
    }

    constructor ()
      ensures Now() == INITIAL && InterruptPending(Now())
    {
      isEnabled, mode, stopThread, pipe, poller := false, Normal, false, 0, Parked;
      storing, activations, posted, written, drained := 0, 0, 0, 0, 0;
    }

    /** Under the lock. */
    method Activate(enable: bool)
      modifies this
      ensures Now() == Apply(old(Now()), OneShotRuns.Activate(enable))
      ensures isEnabled == enable && mode == old(mode) && poller == old(poller) && posted == old(posted)
      ensures pipe == old(pipe) + if old(isEnabled) != enable then 1 else 0
      ensures activations == old(activations) + if !old(isEnabled) && enable then 1 else 0
    {
      if isEnabled != enable {
        isEnabled := enable;
        if enable {
          activations := activations + 1;
        }
        InterruptPoll();
      }
    }

    /** The part of a mode change that holds the lock; the interrupt follows without it. */
    method StoreOperationMode(newMode: Mode)
      modifies this
      ensures Now() == Apply(old(Now()), StoreMode(newMode))
      ensures mode == newMode && isEnabled == old(isEnabled) && pipe == old(pipe) && storing == old(storing) + 1
    {
      if mode != newMode {
        mode := newMode;
      }
      storing := storing + 1;
    }

    method InterruptPoll()
      modifies `pipe, `written
      ensures Now() == Interrupt(old(Now())) && pipe == old(pipe) + 1
    {
      pipe := pipe + 1;
      written := written + 1;
    }

    /** The top of the loop, under the lock: the thread leaves, sleeps, or releases the lock and polls. */
    method TopOfLoop()
      modifies `poller
      ensures Now() == LoopTop(old(Now()))
      ensures poller == if stopThread then Finished
                        else if isEnabled && mode == Normal then InPoll else Parked
    {
      if stopThread {
        poller := Finished;
      } else if !isEnabled || mode == DataInjection {
        poller := Parked;
      } else {
        poller := InPoll;
      }
    }

    /** Back under the lock after a poll. `reading` is what the device file says; `events` are the events
        posted. */
    method HandlePoll(reading: bool) returns (events: nat)
      requires InterruptPending(Now()) && (poller.PollFailed? || poller.Returned?)
      modifies this
      ensures Enabled(old(Now()), Handle(reading)) && Now() == Apply(old(Now()), Handle(reading))
      ensures InterruptPending(Now())
      ensures events == posted - old(posted) <= 1
      ensures events == 1 <==> old(poller.Returned? && poller.deviceReady) && reading
      ensures isEnabled == (old(isEnabled) && events == 0)
      ensures pipe == old(pipe) - if old(poller.Returned? && poller.pipeReady) && events == 0 then 1 else 0
      ensures stopThread == (old(stopThread) || old(poller).PollFailed?)
      ensures poller == if stopThread then Finished
                        else if isEnabled && mode == Normal then InPoll else Parked
    {
      events := 0;
      if poller.PollFailed? {
        stopThread := true;
      } else if poller.deviceReady && reading {
        isEnabled := false;
        events := 1;
        posted := posted + 1;
      } else if poller.pipeReady {
        pipe := pipe - 1;
        drained := drained + 1;
      }
      TopOfLoop();
    }
  }
}
