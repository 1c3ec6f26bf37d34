/** The proxy object: its fields are updated in place, one method for each critical section. Each method
    is proved against the function that the runs are made of. */
module MultiHal {
  import opened Wrappers
  import opened Handles
  import opened SensorTable
  import opened Events
  import opened EventQueue
  import opened Drain
  import opened Sequences
  import D = DynamicSensors
  import W = WakeLock

  class HalProxy {
    const timeout: nat
    const maxPending: nat

    var running: bool

    var sensors: Sensors
    var directSubHal: Option<nat>
    var dynamicSensors: Sensors

    var refCount: nat
    var timeoutStart: int
    var resetTime: int
    ghost var osCalls: seq<W.OsCall>

    var capacity: nat
    var fmq: seq<Event>
    var backlog: seq<Batch>
    var size: nat
    var mostObserved: nat
    var writer: Writer

    // Histories since the last initialisation.
    ghost var posted: seq<Event>
    ghost var accepted: seq<Event>
    ghost var settled: seq<Outcome>
    ghost var written: seq<Event>
    ghost var received: seq<Event>

    ghost function WakeState(): W.WakeLock
      reads this
    {
      W.WakeLock(refCount, osCalls, timeoutStart, resetTime)
    }

    ghost function QueueState(): Queue
      reads this
    {
      Queue(capacity, maxPending, fmq, backlog, size, mostObserved, writer,
            posted, accepted, settled, written, received)
    }

    constructor (lists: seq<seq<SensorInfo>>, timeout: nat, maxPending: nat)
      ensures !running && Table(sensors, directSubHal) == InitialTable(lists)
      ensures QueueState() == NewQueue(0, maxPending, 0) && Valid(QueueState())
      ensures WakeState() == W.UNUSED && dynamicSensors == map[]
      ensures this.timeout == timeout && this.maxPending == maxPending
    {
      this.timeout, this.maxPending := timeout, maxPending;
      running, sensors, directSubHal, dynamicSensors := false, map[], None, map[];
      refCount, timeoutStart, resetTime, osCalls := 0, 0, 0, [];
      capacity, fmq, backlog, size, mostObserved, writer := 0, [], [], 0, 0, Idle;
      posted, accepted, settled, written, received := [], [], [], [], [];
      new;
      InitializeSensorList(lists);
    }

    // ---- Sensors -------------------------------------------------------------------------------------

    method SetDirectChannelFlags(info: SensorInfo, subHal: nat) returns (info': SensorInfo)
      modifies `directSubHal
      ensures directSubHal == ChooseDirect(old(directSubHal), info.flags, subHal)
      ensures info' == info.(flags := DirectFlags(old(directSubHal), info.flags, subHal))
      ensures directSubHal == if old(directSubHal) == None && exists b :: b in info.flags && 7 <= b <= 11
                             then Some(subHal) else old(directSubHal)
      ensures forall b :: b in info'.flags <==> b in info.flags && (7 <= b <= 11 ==> directSubHal == Some(subHal))
    {
      info' := info;
      var supportsDirectChannel := info.flags * DIRECT_MASK != {};
      if directSubHal == None && supportsDirectChannel {
        directSubHal := Some(subHal);
      } else if directSubHal != None && directSubHal != Some(subHal) {
        info' := info.(flags := info.flags - DIRECT_MASK);
      }
    }

    method InitializeSensorList(lists: seq<seq<SensorInfo>>)
      requires sensors == map[] && directSubHal == None
      modifies `sensors, `directSubHal
      ensures Table(sensors, directSubHal) == InitialTable(lists)
    {
      for i := 0 to |lists|
        invariant Table(sensors, directSubHal) == InitialTable(lists[..i])
      {
        ghost var before := Reports(lists[..i]);
        assert before + Tagged(lists[i][..0], i) == before;
        for j := 0 to |lists[i]|
          invariant Table(sensors, directSubHal) == AddReports(EMPTY_TABLE, before + Tagged(lists[i][..j], i))
        {
          var sensor := lists[i][j];
          ghost var t := Table(sensors, directSubHal);
          if SubHalIndexIsClear(sensor.sensorHandle) {
            sensor := sensor.(sensorHandle := SetSubHalIndex(sensor.sensorHandle, i));
            sensor := SetDirectChannelFlags(sensor, i);
            if sensor.typeString == WristTiltString {
              sensor := sensor.(sensorType := PickUpGesture, typeString := PickUpString);
            }
            sensors := sensors[sensor.sensorHandle := sensor];
          }
          assert Table(sensors, directSubHal) == AddReport(t, Report(i, lists[i][j]));
          AddNextReport(before, lists[i], j, i);
        }
        assert lists[..i + 1][..i] == lists[..i] && lists[i][..|lists[i]|] == lists[i];
      }
      assert lists[..|lists|] == lists;
    }

    /** Counting looks each handle up with an indexing operator, which stores a default entry for a handle
        it does not know. The count, and every later lookup, is as if it had not. */
    method CountNumWakeupEvents(events: seq<Event>, n: nat) returns (numWakeupEvents: nat)
      requires n <= |events|
      modifies `sensors
      ensures numWakeupEvents == Wakeups(events[..n], old(sensors))
      ensures forall h: Handle :: InfoOf(sensors, h) == InfoOf(old(sensors), h)
      ensures sensors.Keys == old(sensors.Keys) + set i | 0 <= i < n :: events[i].sensorHandle
    {
      numWakeupEvents := 0;
      for i := 0 to n
        invariant numWakeupEvents == Wakeups(events[..i], old(sensors))
        invariant forall h: Handle :: InfoOf(sensors, h) == InfoOf(old(sensors), h)
        invariant sensors.Keys == old(sensors.Keys) + set j | 0 <= j < i :: events[j].sensorHandle
      {
        var h := events[i].sensorHandle;
        if h !in sensors {
          sensors := sensors[h := DEFAULT_INFO];
        }
        if sensors[h].flags * WAKE_UP != {} {
          numWakeupEvents := numWakeupEvents + 1;
        }
        assert InfoOf(old(sensors), h) == sensors[h];
        assert Front(events[..i + 1]) == events[..i] && Last(events[..i + 1]) == events[i];
      }
    }

    /** The locked part of a connection; what it returns is announced once the lock is released. */
    method OnDynamicSensorsConnected(added: seq<SensorInfo>, subHal: nat) returns (announced: seq<SensorInfo>)
      modifies `dynamicSensors
      ensures dynamicSensors == D.Connect(old(dynamicSensors), added, subHal)
      ensures announced == D.Admitted(added, subHal)
      ensures dynamicSensors == D.Hear(old(dynamicSensors), D.Added(subHal, announced))
    {
      announced := [];
      for i := 0 to |added|
        invariant dynamicSensors == D.Connect(old(dynamicSensors), added[..i], subHal)
        invariant announced == D.Admitted(added[..i], subHal)
      {
        assert Front(added[..i + 1]) == added[..i] && Last(added[..i + 1]) == added[i];
        var sensor := added[i];
        if SubHalIndexIsClear(sensor.sensorHandle) {
          sensor := sensor.(sensorHandle := SetSubHalIndex(sensor.sensorHandle, subHal));
          dynamicSensors := dynamicSensors[sensor.sensorHandle := sensor];
          announced := announced + [sensor];
        }
      }
      assert added[..|added|] == added;
      D.ConnectMeansAdded(old(dynamicSensors), added, subHal);
    }

    method OnDynamicSensorsDisconnected(removed: seq<Handle>, subHal: nat) returns (announced: seq<Handle>)
      modifies `dynamicSensors
      ensures (dynamicSensors, announced) == D.Disconnect(old(dynamicSensors), removed, subHal)
      ensures dynamicSensors == D.Hear(old(dynamicSensors), D.Removed(subHal, announced))
    {
      announced := [];
      for i := 0 to |removed|
        invariant (dynamicSensors, announced) == D.Disconnect(old(dynamicSensors), removed[..i], subHal)
      {
        assert Front(removed[..i + 1]) == removed[..i] && Last(removed[..i + 1]) == removed[i];
        if SubHalIndexIsClear(removed[i]) {
          var key := SetSubHalIndex(removed[i], subHal);
          if key in dynamicSensors {
            dynamicSensors := dynamicSensors - {key};
            announced := announced + [key];
          }
        }
      }
      assert removed[..|removed|] == removed;
      D.DisconnectMeansRemoved(old(dynamicSensors), removed, subHal);
    }

    // ---- The wake lock ---------------------------------------------------------------------------------

    method IncrementRefCount(delta: nat, now: int) returns (locked: bool, start: int)
      modifies `refCount, `timeoutStart, `osCalls
      ensures locked == running && (locked ==> start == now)
      ensures WakeState() == if running then W.Increment(old(WakeState()), delta, now) else old(WakeState())
      ensures refCount == old(refCount) + (if running then delta else 0)
      ensures osCalls == old(osCalls) + if running && old(refCount) == 0 then [W.Acquire] else []
      ensures running ==> timeoutStart == now
    {
      start := W.NO_START;
      if !running {
        return false, start;
      }
      if refCount == 0 {
        osCalls := osCalls + [W.Acquire];
      }
      timeoutStart := now;
      refCount := refCount + delta;
      start := timeoutStart;
      return true, start;
    }

    method DecrementRefCount(delta: nat, start: int)
      modifies `refCount, `osCalls
      ensures WakeState() == if running then W.Decrement(old(WakeState()), delta, start) else old(WakeState())
      ensures refCount == if !running || (start != -1 && start < resetTime) then old(refCount)
                          else if delta < old(refCount) then old(refCount) - delta else 0
      ensures osCalls == old(osCalls) + if refCount == 0 < old(refCount) then [W.Release] else []
    {
      if !running {
        return;
      }
      var start := if start == W.NO_START then resetTime else start;
      if refCount == 0 || start < resetTime {
        return;
      }
      refCount := refCount - Min(refCount, delta);
      if refCount == 0 {
        osCalls := osCalls + [W.Release];
      }
    }

    method ResetSharedWakelock(now: int)
      modifies `refCount, `osCalls, `resetTime
      ensures WakeState() == W.Reset(old(WakeState()), running, now)
      ensures resetTime == now && refCount == if running then 0 else old(refCount)
    {
      DecrementRefCount(refCount, W.NO_START);
      resetTime := now;
    }

    method SharedWakelockDidTimeout(now: int) returns (didTimeout: bool, timeLeft: int)
      ensures didTimeout == W.DidTimeout(WakeState(), now, timeout)
      ensures !didTimeout ==> timeLeft == W.TimeLeft(WakeState(), now, timeout)
      ensures didTimeout <==> now > timeoutStart + timeout
      ensures !didTimeout ==> now + timeLeft == timeoutStart + timeout
      ensures !didTimeout && timeoutStart <= now ==> 0 <= timeLeft <= timeout
    {
      timeLeft := 0;
      var duration := now - timeoutStart;
      if duration > timeout {
        didTimeout := true;
      } else {
        didTimeout := false;
        timeLeft := timeout - duration;
      }
    }

    /** One pass of the wake-lock thread up to the point where it waits for an acknowledgement; it sleeps
        while the count is zero. */
    method CheckWakelock(now: int) returns (timeLeft: Option<int>)
      requires running
      modifies `refCount, `osCalls, `resetTime
      ensures WakeState() == W.Iterate(old(WakeState()), running, now, timeout)
      ensures timeLeft.Some? <==> old(refCount) > 0 && !W.DidTimeout(old(WakeState()), now, timeout)
      ensures timeLeft.Some? ==> timeLeft.value == W.TimeLeft(old(WakeState()), now, timeout)
    {
      if refCount == 0 {
        return None;
      }
      var didTimeout, left := SharedWakelockDidTimeout(now);
      if didTimeout {
        ResetSharedWakelock(now);
        return None;
      }
      return Some(left);
    }

    // ---- Events ----------------------------------------------------------------------------------------

    /** A post charges its wake-up events to the wake lock and then stores its events, all under the
        event-queue mutex. */
    method PostEventsToMessageQueue(events: seq<Event>, numWakeupEvents: nat, locked: bool, writeOk: bool, now: int)
      requires Accounted(QueueState())
      modifies `refCount, `timeoutStart, `osCalls
      modifies `fmq, `backlog, `size, `mostObserved, `posted, `accepted, `settled, `written
      ensures QueueState() == Post(old(QueueState()), events, numWakeupEvents, writeOk) && Accounted(QueueState())
      ensures WakeState()
              == if locked && running then W.Increment(old(WakeState()), numWakeupEvents, now) else old(WakeState())
    {
      if locked {
        var _, _ := IncrementRefCount(numWakeupEvents, now);
      }
      StoreEvents(events, numWakeupEvents, writeOk);
    }

    method StoreEvents(events: seq<Event>, numWakeupEvents: nat, writeOk: bool)
      requires Accounted(QueueState())
      modifies `fmq, `backlog, `size, `mostObserved, `posted, `accepted, `settled, `written
      ensures QueueState() == Post(old(QueueState()), events, numWakeupEvents, writeOk) && Accounted(QueueState())
    {
      ghost var q := QueueState();
      var numToWrite := WriteNow(events, writeOk);
      QueueRemainder(events[..numToWrite], events[numToWrite..], numWakeupEvents);
      PostKeepsAccounts(q, events, numWakeupEvents, writeOk);
    }

    /** What fits is written at once, unless a backlog has to go first. */
    method WriteNow(events: seq<Event>, writeOk: bool) returns (numToWrite: nat)
      requires Accounted(QueueState())
      modifies `fmq, `settled, `written
      ensures numToWrite == NumToWrite(old(QueueState()), events, writeOk)
      ensures QueueState() == WriteDirect(old(QueueState()), events[..numToWrite])
    {
      numToWrite := 0;
      if backlog == [] {
        numToWrite := Min(|events|, capacity - |fmq|);
        if numToWrite > 0 {
          if writeOk {
            fmq := fmq + events[..numToWrite];
          } else {
            numToWrite := 0;
          }
        }
      }
      written := written + events[..numToWrite];
      settled := settled + Outcomes(events[..numToWrite], true);
    }

    /** What was not written joins the backlog if there is room for all of it, and is dropped otherwise. */
    method QueueRemainder(direct: seq<Event>, eventsLeft: seq<Event>, numWakeupEvents: nat)
      modifies `backlog, `size, `mostObserved, `posted, `accepted
      ensures QueueState() == Store(old(QueueState()), direct, eventsLeft, numWakeupEvents)
    {
      posted := posted + (direct + eventsLeft);
      if eventsLeft != [] && size + |eventsLeft| <= maxPending {
        backlog := backlog + [Batch(eventsLeft, numWakeupEvents)];
        size := size + |eventsLeft|;
        mostObserved := Max(mostObserved, size);
        accepted := accepted + (direct + eventsLeft);
      } else {
        accepted := accepted + direct;
      }
    }

    /** A sub-HAL's callback: nothing is posted while the threads are stopped or when there is nothing to
        post; otherwise the batch is filtered, stamped, counted and handed on. */
    method PostEvents(events: seq<Event>, subHal: nat, locked: bool, writeOk: bool, now: int)
      requires Accounted(QueueState())
      modifies `refCount, `timeoutStart, `osCalls
      modifies `fmq, `backlog, `size, `mostObserved, `posted, `accepted, `settled, `written
      ensures Accounted(QueueState())
      ensures var out := Processed(events, subHal, sensors);
              if events == [] || !running then QueueState() == old(QueueState()) && WakeState() == old(WakeState())
              else
                && QueueState() == Post(old(QueueState()), out, Wakeups(out, sensors), writeOk)
                && WakeState() == if locked then W.Increment(old(WakeState()), Wakeups(out, sensors), now)
                                  else old(WakeState())
    {
      if events == [] || !running {
        return;
      }
      var processed, numWakeupEvents := ProcessEvents(events, subHal, sensors);
      PostEventsToMessageQueue(processed, numWakeupEvents, locked, writeOk, now);
    }

    /** The first locked section of the pending-writes loop. */
    method BeginPendingWrite()
      requires Accounted(QueueState()) && writer == Idle && backlog != []
      modifies `writer
      ensures QueueState() == BeginWrite(old(QueueState())) && Accounted(QueueState())
    {
      var numToWrite := Min(|backlog[0].events|, capacity);
      writer := Blocking(numToWrite);
    }

    /** The unlocked blocking write, which succeeds only if the whole chunk fits; a timeout gives the lost
        wake-up events back. */
    method BlockingWrite(writeOk: bool)
      requires Accounted(QueueState()) && writer.Blocking?
      modifies `fmq, `writer, `written, `sensors, `refCount, `osCalls
      ensures var q := old(QueueState());
              if writeOk && |q.fmq| + q.writer.n <= q.capacity
              then QueueState() == Deliver(q) && WakeState() == old(WakeState()) && sensors == old(sensors)
              else QueueState() == Fail(q)
                   && WakeState() == (if running
                                      then W.Decrement(old(WakeState()), FailedWakeups(q, old(sensors)), W.NO_START)
                                      else old(WakeState()))
      ensures forall h: Handle :: InfoOf(sensors, h) == InfoOf(old(sensors), h)
      ensures Accounted(QueueState())
      ensures var n := old(writer.n);
              var events := old(backlog)[0].events;
              if writeOk && old(|fmq|) + n <= capacity then fmq == old(fmq) + events[..n]
              else
                var given := if |events| > capacity
                             then Wakeups(events[..n], old(sensors)) else old(backlog)[0].wakeups;
                fmq == old(fmq) && (running && old(backlog)[0].wakeups > 0 ==>
                                     refCount == if given < old(refCount) then old(refCount) - given else 0)
    {
      if writeOk && |fmq| + writer.n <= capacity {
        var events := backlog[0].events;
        fmq := fmq + events[..writer.n];
        written := written + events[..writer.n];
        writer := Delivered(writer.n);
      } else {
        GiveBackWakeups();
        writer := Failed(writer.n);
      }
    }

    method GiveBackWakeups()
      requires backlog != [] && writer != Idle && writer.n == Min(|backlog[0].events|, capacity)
      modifies `sensors, `refCount, `osCalls
      ensures WakeState() == if running
                             then W.Decrement(old(WakeState()), FailedWakeups(QueueState(), old(sensors)), W.NO_START)
                             else old(WakeState())
      ensures forall h: Handle :: InfoOf(sensors, h) == InfoOf(old(sensors), h)
    {
      var events, numWakeupEvents := backlog[0].events, backlog[0].wakeups;
      if numWakeupEvents > 0 {
        if |events| > capacity {
          var lost := CountNumWakeupEvents(events, capacity);
          DecrementRefCount(lost, W.NO_START);
        } else {
          DecrementRefCount(numWakeupEvents, W.NO_START);
        }
      }
    }

    /** The second locked section of the pending-writes loop. */
    method EndPendingWrite()
      requires Accounted(QueueState()) && (writer.Delivered? || writer.Failed?)
      modifies `backlog, `size, `writer, `settled
      ensures writer == Idle && old(writer.n) <= old(size)
      ensures QueueState() == EndWrite(old(QueueState())) && Accounted(QueueState())
    {
      ghost var q := QueueState();
      EndWriteKeepsAccounts(q);
      var events := backlog[0].events;
      size := size - writer.n;
      settled := settled + Outcomes(events[..writer.n], writer.Delivered?);
      if |events| > capacity {
        backlog := [Batch(events[capacity..], backlog[0].wakeups)] + backlog[1..];
      } else {
        backlog := backlog[1..];
      }
      writer := Idle;
    }

    /** The framework reads what is there, up to `n` events. */
    method FrameworkRead(n: nat) returns (events: seq<Event>)
      requires Accounted(QueueState())
      modifies `fmq, `received
      ensures QueueState() == Read(old(QueueState()), Min(n, old(|fmq|))) && Accounted(QueueState())
      ensures events == old(fmq)[..Min(n, old(|fmq|))]
    {
      var k := Min(n, |fmq|);
      events := fmq[..k];
      fmq, received := fmq[k..], received + fmq[..k];
    }

    /** One round of the pending-writes loop. */
    method PendingRound(env: Interference) returns (chunk: seq<Event>)
      requires Accounted(QueueState()) && writer == Idle && backlog != []
      modifies `fmq, `backlog, `size, `writer, `settled, `written, `received, `sensors, `refCount, `osCalls
      ensures QueueState() == Round(old(QueueState()), env)
      ensures chunk == old(backlog)[0].events[..Min(|old(backlog)[0].events|, capacity)]
    {
      BeginPendingWrite();
      chunk := backlog[0].events[..writer.n];
      var _ := FrameworkRead(env.taken);
      BlockingWrite(env.writeOk);
      EndPendingWrite();
    }

    /** One round, added to the chunks written so far: nothing is lost from what is still to come. */
    method NextChunk(env: Interference, chunks: seq<seq<Event>>) returns (chunks': seq<seq<Event>>)
      requires Valid(QueueState()) && writer == Idle && backlog != [] && capacity > 0
      modifies `fmq, `backlog, `size, `writer, `settled, `written, `received, `sensors, `refCount, `osCalls
      ensures Valid(QueueState()) && writer == Idle && size < old(size)
      ensures chunks' + BacklogChunks(backlog, capacity) == chunks + BacklogChunks(old(backlog), capacity)
    {
      RoundAdvances(QueueState(), env, chunks);
      var chunk := PendingRound(env);
      chunks' := chunks + [chunk];
    }

    /** The loop, with the framework reading and writes succeeding or timing out as `env` says, and no new
        posts: it writes exactly the backlog's chunks. */
    method DrainBacklog(env: nat -> Interference) returns (chunks: seq<seq<Event>>)
      requires Valid(QueueState()) && writer == Idle && capacity > 0
      modifies `fmq, `backlog, `size, `writer, `settled, `written, `received, `sensors, `refCount, `osCalls
      ensures Valid(QueueState()) && writer == Idle && backlog == []
      ensures chunks == BacklogChunks(old(backlog), capacity)
    {
      chunks := [];
      while backlog != []
        invariant Valid(QueueState()) && writer == Idle
        invariant chunks + BacklogChunks(backlog, capacity) == BacklogChunks(old(backlog), capacity)
        decreases size
      {
        chunks := NextChunk(env(|chunks|), chunks);
      }
      assert chunks + BacklogChunks([], capacity) == chunks;
    }

    /** The pending-writes thread: while the threads run it empties any backlog, whatever the environment
        does, in exactly the number of rounds that the entries need, and the chunks put the backlog
        together again. */
    method HandlePendingWrites(env: nat -> Interference) returns (chunks: seq<seq<Event>>)
      requires Valid(QueueState()) && writer == Idle && capacity > 0
      modifies `fmq, `backlog, `size, `writer, `settled, `written, `received, `sensors, `refCount, `osCalls
      ensures Valid(QueueState()) && writer == Idle
      ensures !running ==> chunks == [] && QueueState() == old(QueueState())
      ensures running ==> backlog == [] && size == 0 && accepted == SettledEvents(settled)
      ensures running ==> chunks == BacklogChunks(old(backlog), capacity)
      ensures running ==> |chunks| == Iterations(old(backlog), capacity)
      ensures running ==> Concat(chunks) == Flatten(old(backlog))
    {
      chunks := [];
      if running {
        BacklogChunksPartition(backlog, capacity);
        chunks := DrainBacklog(env);
      }
    }

    // ---- Stop and restart --------------------------------------------------------------------------------

    /** Whatever is in the queue is thrown away, so that a blocked writer can finish. */
    method StopThreads()
      modifies `running, `fmq
      ensures !running && QueueState() == Discard(old(QueueState()))
      ensures fmq == []
    {
      running := false;
      fmq := [];
    }

    method ClearQueue(newCapacity: nat)
      requires writer == Idle
      modifies `capacity, `fmq, `backlog, `size, `posted, `accepted, `settled, `written, `received
      ensures QueueState() == NewQueue(newCapacity, maxPending, mostObserved)
    {
      backlog, size := [], 0;
      capacity, fmq := newCapacity, [];
      posted, accepted, settled, written, received := [], [], [], [], [];
    }

    /** A new initialisation: the backlog and the dynamic sensors go, the count stays, the high-water mark
        stays. The pending-writes thread has been joined. */
    method Initialize(newCapacity: nat, now: int)
      requires writer == Idle
      modifies `running, `dynamicSensors, `refCount, `osCalls, `resetTime
      modifies `capacity, `fmq, `backlog, `size, `posted, `accepted, `settled, `written, `received
      ensures running && dynamicSensors == map[]
      ensures QueueState() == NewQueue(newCapacity, maxPending, old(mostObserved))
      ensures capacity == newCapacity && fmq == [] && backlog == [] && size == 0 && resetTime == now
      ensures WakeState() == W.Reset(old(WakeState()), false, now) && refCount == old(refCount)
    {
      StopThreads();
      ResetSharedWakelock(now);
      ClearQueue(newCapacity);
      dynamicSensors := map[];
      running := true;
    }
  }
}
