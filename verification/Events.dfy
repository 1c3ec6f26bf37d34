/** Sensor events: the filter a sub-HAL's batch goes through, and the wake-up count of a batch. */
module Events {
  import opened Handles
  import opened SensorTable
  import opened Sequences

  datatype Event = Event(sensorHandle: Handle, timestamp: int, scalar: real)

  /** How many of the events come from wake-up sensors. */
  function Wakeups(events: seq<Event>, sensors: Sensors): nat {
    if events == [] then 0
    else Wakeups(Front(events), sensors) + if IsWakeUp(sensors, Last(events).sensorHandle) then 1 else 0
  }

  function Stamp(e: Event, subHal: nat): Event {
    e.(sensorHandle := SetSubHalIndex(e.sensorHandle, subHal))
  }

  /** A pick-up sensor's event passes only when its scalar is one; every other event passes. */
  predicate Passes(e: Event, subHal: nat, sensors: Sensors) {
    InfoOf(sensors, Stamp(e, subHal).sensorHandle).sensorType == PickUpGesture ==> e.scalar == 1.0
  }

  /** The batch a sub-HAL's events turn into. */
  function Processed(events: seq<Event>, subHal: nat, sensors: Sensors): seq<Event> {
    if events == [] then []
    else
      Processed(Front(events), subHal, sensors)
      + if Passes(Last(events), subHal, sensors) then [Stamp(Last(events), subHal)] else []
  }

  function Stamped(events: seq<Event>, subHal: nat): seq<Event> {
    seq(|events|, i requires 0 <= i < |events| => Stamp(events[i], subHal))
  }

  lemma {:induction false} WakeupsConcat(a: seq<Event>, b: seq<Event>, sensors: Sensors)
    ensures Wakeups(a + b, sensors) == Wakeups(a, sensors) + Wakeups(b, sensors)
  {
    if b == [] {
      assert a + b == a;
    } else {
      WakeupsConcat(a, Front(b), sensors);
      assert Front(a + b) == a + Front(b);
    }
  }

  /** A batch's count splits additively at every chunk boundary. */
  lemma WakeupsSplit(events: seq<Event>, n: nat, sensors: Sensors)
    requires n <= |events|
    ensures Wakeups(events, sensors) == Wakeups(events[..n], sensors) + Wakeups(events[n..], sensors)
  {
    WakeupsConcat(events[..n], events[n..], sensors);
    assert events[..n] + events[n..] == events;
  }

  /** A wake-up event is one whose handle the table knows, with the lowest bit of its flags set. */
  lemma WakeUpIsLowestBit(sensors: Sensors, h: Handle)
    ensures IsWakeUp(sensors, h) <==> h in sensors && 0 in sensors[h].flags
  {
    if h in sensors {
      assert 0 in sensors[h].flags <==> 0 in sensors[h].flags * WAKE_UP;
    }
  }

  function WakeUpPositions(events: seq<Event>, sensors: Sensors): set<nat> {
    set i: nat | i < |events| && IsWakeUp(sensors, events[i].sensorHandle)
  }

  lemma NextPosition(events: seq<Event>, e: Event, sensors: Sensors)
    ensures WakeUpPositions(events + [e], sensors)
            == WakeUpPositions(events, sensors) + if IsWakeUp(sensors, e.sensorHandle) then {|events|} else {}
  {
    var all := events + [e];
    forall i: nat | i < |all|
      ensures i in WakeUpPositions(all, sensors)
              <==> if i < |events| then i in WakeUpPositions(events, sensors) else IsWakeUp(sensors, e.sensorHandle)
    {
      assert all[i] == if i < |events| then events[i] else e;
    }
  }

  /** The count is how many of the events are wake-up events. */
  lemma {:induction false} WakeupsAreCounted(events: seq<Event>, sensors: Sensors)
    ensures Wakeups(events, sensors) == |WakeUpPositions(events, sensors)|
  {
    if events != [] {
      WakeupsAreCounted(Front(events), sensors);
      NextPosition(Front(events), Last(events), sensors);
      assert Front(events) + [Last(events)] == events;
    }
  }

  /** Storing default entries for unknown handles, as a counting lookup does, changes no count. */
  lemma {:induction false} WakeupsSameLookups(events: seq<Event>, sensors: Sensors, sensors': Sensors)
    requires forall h :: IsWakeUp(sensors, h) == IsWakeUp(sensors', h)
    ensures Wakeups(events, sensors) == Wakeups(events, sensors')
  {
    if events != [] {
      WakeupsSameLookups(Front(events), sensors, sensors');
    }
  }

  /** Processing distributes over concatenation. */
  lemma {:induction false} ProcessedConcat(a: seq<Event>, b: seq<Event>, subHal: nat, sensors: Sensors)
    ensures Processed(a + b, subHal, sensors) == Processed(a, subHal, sensors) + Processed(b, subHal, sensors)
  {
    if b == [] {
      assert a + b == a;
    } else {
      ProcessedConcat(a, Front(b), subHal, sensors);
      assert Front(a + b) == a + Front(b);
    }
  }

  /** A pick-up sensor's event yields something exactly when its scalar is one, and every other sensor's
      event always does. What comes out is the event under its stamped handle, nothing else changed, after
      exactly the outputs of the events before it. */
  lemma PassingEventPosition(events: seq<Event>, i: nat, subHal: nat, sensors: Sensors)
    requires i < |events|
    ensures var e, h := events[i], SetSubHalIndex(events[i].sensorHandle, subHal);
            var before, out := |Processed(events[..i], subHal, sensors)|, Processed(events, subHal, sensors);
            if h in sensors && sensors[h].sensorType == PickUpGesture && e.scalar != 1.0
            then |Processed(events[..i + 1], subHal, sensors)| == before
            else before < |out| && out[before] == Event(h, e.timestamp, e.scalar)
                 && |Processed(events[..i + 1], subHal, sensors)| == before + 1
  {
    assert events == events[..i + 1] + events[i + 1..];
    ProcessedConcat(events[..i + 1], events[i + 1..], subHal, sensors);
    assert Front(events[..i + 1]) == events[..i];
  }

  /** Nothing comes out of a batch exactly when it holds nothing but pick-up events with a scalar other than
      one. */
  lemma {:induction false} ProcessedEmptyIff(events: seq<Event>, subHal: nat, sensors: Sensors)
    ensures Processed(events, subHal, sensors) == []
            <==> forall e | e in events ::
                   var h := SetSubHalIndex(e.sensorHandle, subHal);
                   h in sensors && sensors[h].sensorType == PickUpGesture && e.scalar != 1.0
  {
    if events != [] {
      ProcessedEmptyIff(Front(events), subHal, sensors);
      assert forall e :: e in events <==> e in Front(events) || e == Last(events);
    }
  }

  /** Nothing is reordered, repeated or invented. */
  lemma {:induction false} ProcessedIsSubsequence(events: seq<Event>, subHal: nat, sensors: Sensors)
    ensures IsSubsequence(Processed(events, subHal, sensors), Stamped(events, subHal))
  {
    if events != [] {
      ProcessedIsSubsequence(Front(events), subHal, sensors);
      var out, x := Processed(Front(events), subHal, sensors), Stamp(Last(events), subHal);
      assert Stamped(events, subHal) == Stamped(Front(events), subHal) + [x];
      if Passes(Last(events), subHal, sensors) {
        AppendBoth(out, Stamped(Front(events), subHal), [x]);
      } else {
        Widen(out, Stamped(Front(events), subHal), x);
        assert out + [] == out;
      }
    }
  }

  lemma ProcessedNext(events: seq<Event>, i: nat, subHal: nat, sensors: Sensors)
    requires i < |events|
    ensures Processed(events[..i + 1], subHal, sensors)
            == Processed(events[..i], subHal, sensors)
               + if Passes(events[i], subHal, sensors) then [Stamp(events[i], subHal)] else []
  {
    assert Front(events[..i + 1]) == events[..i];
  }

  lemma WakeupsNext(events: seq<Event>, e: Event, sensors: Sensors)
    ensures Wakeups(events + [e], sensors)
            == Wakeups(events, sensors) + if IsWakeUp(sensors, e.sensorHandle) then 1 else 0
  {
    assert Front(events + [e]) == events;
  }

  /** The callback's loop over a batch, counting wake-up events as it goes. The count it returns is the
      count of its whole output: what the proxy later charges for a chunk adds up to it. */
  method ProcessEvents(events: seq<Event>, subHal: nat, sensors: Sensors)
    returns (eventsOut: seq<Event>, numWakeupEvents: nat)
    ensures eventsOut == Processed(events, subHal, sensors)
    ensures numWakeupEvents == Wakeups(eventsOut, sensors)
    ensures numWakeupEvents == |WakeUpPositions(eventsOut, sensors)|
    ensures forall n :: 0 <= n <= |eventsOut| ==>
              numWakeupEvents == Wakeups(eventsOut[..n], sensors) + Wakeups(eventsOut[n..], sensors)
  {
    eventsOut, numWakeupEvents := [], 0;
    for i := 0 to |events|
      invariant eventsOut == Processed(events[..i], subHal, sensors)
      invariant numWakeupEvents == Wakeups(eventsOut, sensors)
    {
      ProcessedNext(events, i, subHal, sensors);
      var event := events[i].(sensorHandle := SetSubHalIndex(events[i].sensorHandle, subHal));
      var sensor := InfoOf(sensors, event.sensorHandle);
      if sensor.sensorType == PickUpGesture && event.scalar != 1.0 {
        continue;
      }
      if sensor.flags * WAKE_UP != {} {
        numWakeupEvents := numWakeupEvents + 1;
      }
      WakeupsNext(eventsOut, event, sensors);
      eventsOut := eventsOut + [event];
    }
    assert events[..|events|] == events;
    WakeupsAreCounted(eventsOut, sensors);
    forall n | 0 <= n <= |eventsOut|
      ensures numWakeupEvents == Wakeups(eventsOut[..n], sensors) + Wakeups(eventsOut[n..], sensors)
    {
      WakeupsSplit(eventsOut, n, sensors);
    }
  }
}
