/** Sensors that come and go: the table is updated under a mutex, but the framework is told only after
    the mutex has been released. */
module DynamicSensors {
  import opened Handles
  import opened SensorTable
  import opened Sequences
  import opened Wrappers

  /** A change on its way to the framework. */
  datatype Notice =
    | Added(subHal: nat, sensors: seq<SensorInfo>)
    | Removed(subHal: nat, handles: seq<Handle>)

  function HandlesOf(sensors: seq<SensorInfo>): seq<Handle> {
    seq(|sensors|, i requires 0 <= i < |sensors| => sensors[i].sensorHandle)
  }

  /** The sensors of one call that a sub-HAL may add, under their stamped handles. */
  function Admitted(sensors: seq<SensorInfo>, subHal: nat): seq<SensorInfo> {
    if sensors == [] then []
    else
      var s := Last(sensors);
      Admitted(Front(sensors), subHal)
      + if SubHalIndexIsClear(s.sensorHandle)
        then [s.(sensorHandle := SetSubHalIndex(s.sensorHandle, subHal))] else []
  }

  function Connect(table: Sensors, sensors: seq<SensorInfo>, subHal: nat): Sensors {
    if sensors == [] then table
    else
      var s, table' := Last(sensors), Connect(table, Front(sensors), subHal);
      if SubHalIndexIsClear(s.sensorHandle)
      then
        var key := SetSubHalIndex(s.sensorHandle, subHal);
        table'[key := s.(sensorHandle := key)]
      else table'
  }

  /** The table after a disconnection, and the handles that were really removed. */
  function Disconnect(table: Sensors, handles: seq<Handle>, subHal: nat): (Sensors, seq<Handle>) {
    if handles == [] then (table, [])
    else
      var (table', removed) := Disconnect(table, Front(handles), subHal);
      var key := SetSubHalIndex(Last(handles), subHal);
      if SubHalIndexIsClear(Last(handles)) && key in table' then (table' - {key}, removed + [key])
      else (table', removed)
  }

  function AddAll(known: Sensors, sensors: seq<SensorInfo>): Sensors {
    if sensors == [] then known else AddAll(known, Front(sensors))[Last(sensors).sensorHandle := Last(sensors)]
  }

  /** The framework's sensors once it has heard a notice: it keeps what it was last told of each handle. */
  function Hear(known: Sensors, notice: Notice): Sensors {
    match notice
    case Added(_, sensors) => AddAll(known, sensors)
    case Removed(_, handles) => known - set h | h in handles
  }

  ghost predicate AllOwnedBy(handles: seq<Handle>, subHal: nat) {
    forall h | h in handles :: TopByte(h) == subHal % BYTE
  }

  /** Connecting adds exactly the admitted sensors, under handles of the sub-HAL's own, and touches no
      other entry. */
  lemma {:induction false} ConnectMeansAdded(table: Sensors, sensors: seq<SensorInfo>, subHal: nat)
    ensures var admitted := Admitted(sensors, subHal);
            var table' := Connect(table, sensors, subHal);
            && table' == Hear(table, Added(subHal, admitted))
            && table'.Keys == table.Keys + (set h | h in HandlesOf(admitted))
            && AllOwnedBy(HandlesOf(admitted), subHal)
            && (forall h | h in table' :: if h in HandlesOf(admitted)
                                         then table'[h].sensorHandle == h && table'[h] in admitted
                                         else table'[h] == table[h])
  {
    if sensors != [] {
      ConnectMeansAdded(table, Front(sensors), subHal);
      var s := Last(sensors);
      var before := Admitted(Front(sensors), subHal);
      if SubHalIndexIsClear(s.sensorHandle) {
        var key := SetSubHalIndex(s.sensorHandle, subHal);
        SetOnClear(s.sensorHandle, subHal);
        assert Front(Admitted(sensors, subHal)) == before;
        assert HandlesOf(Admitted(sensors, subHal)) == HandlesOf(before) + [key];
      } else {
        assert Admitted(sensors, subHal) == before;
      }
    }
  }

  /** Every clear sensor of a call is announced and no other: under its stamped handle, nothing else changed,
      directly after those before it in the call. */
  lemma AnnouncedInCallOrder(sensors: seq<SensorInfo>, i: nat, subHal: nat)
    requires i < |sensors|
    ensures var before, all := |Admitted(sensors[..i], subHal)|, Admitted(sensors, subHal);
            var s, n := sensors[i], |Admitted(sensors[..i + 1], subHal)|;
            if SubHalIndexIsClear(s.sensorHandle)
            then before < |all| && n == before + 1
                 && all[before] == s.(sensorHandle := SetSubHalIndex(s.sensorHandle, subHal))
            else n == before
  {
    assert Front(sensors[..i + 1]) == sensors[..i];
    AdmittedPrefix(sensors, i + 1, subHal);
  }

  lemma {:induction false} AdmittedPrefix(sensors: seq<SensorInfo>, i: nat, subHal: nat)
    requires i <= |sensors|
    ensures Admitted(sensors[..i], subHal) <= Admitted(sensors, subHal)
    decreases |sensors|
  {
    if i == |sensors| {
      assert sensors[..i] == sensors;
    } else {
      assert Front(sensors)[..i] == sensors[..i];
      AdmittedPrefix(Front(sensors), i, subHal);
    }
  }

  function ClearPositions(sensors: seq<SensorInfo>): set<nat> {
    set i: nat | i < |sensors| && SubHalIndexIsClear(sensors[i].sensorHandle)
  }

  lemma NextPosition(sensors: seq<SensorInfo>, s: SensorInfo)
    ensures ClearPositions(sensors + [s])
            == ClearPositions(sensors) + if SubHalIndexIsClear(s.sensorHandle) then {|sensors|} else {}
  {
    var all := sensors + [s];
    forall i: nat | i < |all|
      ensures i in ClearPositions(all)
              <==> if i < |sensors| then i in ClearPositions(sensors) else SubHalIndexIsClear(s.sensorHandle)
    {
      assert all[i] == if i < |sensors| then sensors[i] else s;
    }
  }

  /** There are as many announced sensors as clear ones in the call. */
  lemma {:induction false} AnnouncedAreCounted(sensors: seq<SensorInfo>, subHal: nat)
    ensures |Admitted(sensors, subHal)| == |ClearPositions(sensors)|
  {
    if sensors != [] {
      AnnouncedAreCounted(Front(sensors), subHal);
      NextPosition(Front(sensors), Last(sensors));
      assert Front(sensors) + [Last(sensors)] == sensors;
    }
  }

  /** Sensor `i` of a call is clear and stamped to `key`. */
  ghost predicate ConnectsAs(sensors: seq<SensorInfo>, i: int, subHal: nat, key: Handle) {
    && 0 <= i < |sensors| && SubHalIndexIsClear(sensors[i].sensorHandle)
    && SetSubHalIndex(sensors[i].sensorHandle, subHal) == key
  }

  lemma ConnectsAsPrefix(sensors: seq<SensorInfo>, i: int, subHal: nat, key: Handle)
    requires sensors != [] && i != |sensors| - 1
    ensures ConnectsAs(sensors, i, subHal, key) <==> ConnectsAs(Front(sensors), i, subHal, key)
  {
  }

  lemma ConnectNext(table: Sensors, sensors: seq<SensorInfo>, subHal: nat, key: Handle)
    requires sensors != []
    ensures Lookup(Connect(table, sensors, subHal), key)
            == if ConnectsAs(sensors, |sensors| - 1, subHal, key) then Some(Last(sensors).(sensorHandle := key))
               else Lookup(Connect(table, Front(sensors), subHal), key)
  {
  }

  /** A connection changes nothing under a key to which no clear sensor of the call is stamped. */
  lemma {:induction false} ConnectionKeepsOthers(table: Sensors, sensors: seq<SensorInfo>, subHal: nat, key: Handle)
    requires forall i :: !ConnectsAs(sensors, i, subHal, key)
    ensures Lookup(Connect(table, sensors, subHal), key) == Lookup(table, key)
  {
    if sensors != [] {
      forall i ensures !ConnectsAs(Front(sensors), i, subHal, key) {
        if i != |sensors| - 1 {
          ConnectsAsPrefix(sensors, i, subHal, key);
        }
      }
      ConnectNext(table, sensors, subHal, key);
      ConnectionKeepsOthers(table, Front(sensors), subHal, key);
    }
  }

  /** Under any other key the table has, after a connection, the last clear sensor of the call stamped to it,
      under its stamped handle. */
  lemma {:induction false} ConnectionHoldsLast(table: Sensors, sensors: seq<SensorInfo>, i: nat, subHal: nat,
                                               key: Handle)
    requires ConnectsAs(sensors, i, subHal, key)
    requires forall k | i < k < |sensors| :: !ConnectsAs(sensors, k, subHal, key)
    ensures Lookup(Connect(table, sensors, subHal), key) == Some(sensors[i].(sensorHandle := key))
    decreases |sensors|
  {
    ConnectNext(table, sensors, subHal, key);
    if i < |sensors| - 1 {
      assert !ConnectsAs(sensors, |sensors| - 1, subHal, key);
      ConnectsAsPrefix(sensors, i, subHal, key);
      forall k | i < k < |Front(sensors)| ensures !ConnectsAs(Front(sensors), k, subHal, key) {
        ConnectsAsPrefix(sensors, k, subHal, key);
      }
      ConnectionHoldsLast(table, Front(sensors), i, subHal, key);
    }
  }

  /** A clear handle of the call is stamped to `key`, and the table had it. */
  ghost predicate Requested(table: Sensors, handles: seq<Handle>, subHal: nat, key: Handle) {
    key in table && exists h :: h in handles && SubHalIndexIsClear(h) && SetSubHalIndex(h, subHal) == key
  }

  function StampedAll(handles: seq<Handle>, subHal: nat): seq<Handle> {
    seq(|handles|, i requires 0 <= i < |handles| => SetSubHalIndex(handles[i], subHal))
  }

  /** Disconnecting removes exactly the handles it announces, each once, all the sub-HAL's own and in the
      order of the call; and it announces exactly the stamped handles of the clear requests that were in the
      table. */
  lemma {:induction false} DisconnectMeansRemoved(table: Sensors, handles: seq<Handle>, subHal: nat)
    ensures var (table', removed) := Disconnect(table, handles, subHal);
            && table' == table - (set h | h in removed)
            && AllOwnedBy(removed, subHal)
            && (forall h :: h in removed <==> Requested(table, handles, subHal, h))
            && (forall i, j | 0 <= i < j < |removed| :: removed[i] != removed[j])
            && IsSubsequence(removed, StampedAll(handles, subHal))
  {
    if handles != [] {
      DisconnectMeansRemoved(table, Front(handles), subHal);
      RemovalStep(table, handles, subHal);
      forall h ensures h in Disconnect(table, handles, subHal).1 <==> Requested(table, handles, subHal, h) {
        RequestedNext(table, handles, subHal, h);
      }
      RemovedNext(table, handles, subHal);
    }
  }

  lemma RemovalStep(table: Sensors, handles: seq<Handle>, subHal: nat)
    requires handles != []
    requires var (table', removed) := Disconnect(table, Front(handles), subHal);
             && table' == table - (set h | h in removed)
             && AllOwnedBy(removed, subHal)
             && (forall i, j | 0 <= i < j < |removed| :: removed[i] != removed[j])
    ensures var (table', removed) := Disconnect(table, handles, subHal);
            var before, key := Disconnect(table, Front(handles), subHal).1, SetSubHalIndex(Last(handles), subHal);
            && table' == table - (set h | h in removed)
            && AllOwnedBy(removed, subHal)
            && (forall i, j | 0 <= i < j < |removed| :: removed[i] != removed[j])
            && (forall h :: h in removed
                  <==> h in before || (h in table && SubHalIndexIsClear(Last(handles)) && h == key))
  {
    if SubHalIndexIsClear(Last(handles)) {
      SetOnClear(Last(handles), subHal);
    }
  }

  lemma RequestedNext(table: Sensors, handles: seq<Handle>, subHal: nat, h: Handle)
    requires handles != []
    ensures Requested(table, handles, subHal, h)
            <==> Requested(table, Front(handles), subHal, h)
                 || (h in table && SubHalIndexIsClear(Last(handles)) && h == SetSubHalIndex(Last(handles), subHal))
  {
    if Requested(table, handles, subHal, h) {
      var r :| r in handles && SubHalIndexIsClear(r) && SetSubHalIndex(r, subHal) == h;
      assert r in Front(handles) || r == Last(handles);
    }
  }

  lemma RemovedNext(table: Sensors, handles: seq<Handle>, subHal: nat)
    requires handles != []
    requires IsSubsequence(Disconnect(table, Front(handles), subHal).1, StampedAll(Front(handles), subHal))
    ensures IsSubsequence(Disconnect(table, handles, subHal).1, StampedAll(handles, subHal))
  {
    var before, key := StampedAll(Front(handles), subHal), SetSubHalIndex(Last(handles), subHal);
    var removed := Disconnect(table, Front(handles), subHal).1;
    assert StampedAll(handles, subHal) == before + [key];
    if SubHalIndexIsClear(Last(handles)) && key in Disconnect(table, Front(handles), subHal).0 {
      AppendBoth(removed, before, [key]);
    } else {
      Widen(removed, before, key);
    }
  }

  // ---- What a notice says ----------------------------------------------------------------------------

  function Lookup(known: Sensors, h: Handle): Option<SensorInfo> {
    if h in known then Some(known[h]) else None
  }

  lemma SameSensors(a: Sensors, b: Sensors)
    requires forall h: Handle :: Lookup(a, h) == Lookup(b, h)
    ensures a == b
  {
    forall h ensures h in a <==> h in b {
      assert Lookup(a, h) == Lookup(b, h);
    }
    forall h | h in a ensures a[h] == b[h] {
      assert Lookup(a, h) == Lookup(b, h);
    }
  }

  function LastInfo(sensors: seq<SensorInfo>, h: Handle): Option<SensorInfo> {
    if sensors == [] then None
    else if Last(sensors).sensorHandle == h then Some(Last(sensors))
    else LastInfo(Front(sensors), h)
  }

  /** What a notice says of a handle, if anything: that it is this sensor now, or none. */
  function Says(notice: Notice, h: Handle): Option<Option<SensorInfo>> {
    match notice
    case Added(_, sensors) => if LastInfo(sensors, h).Some? then Some(LastInfo(sensors, h)) else None
    case Removed(_, handles) => if h in handles then Some(None) else None
  }

  lemma {:induction false} AddAllSays(known: Sensors, sensors: seq<SensorInfo>, h: Handle)
    ensures Lookup(AddAll(known, sensors), h)
            == if LastInfo(sensors, h).Some? then LastInfo(sensors, h) else Lookup(known, h)
  {
    if sensors != [] {
      AddAllSays(known, Front(sensors), h);
    }
  }

  lemma HearSays(known: Sensors, notice: Notice, h: Handle)
    ensures Lookup(Hear(known, notice), h)
            == if Says(notice, h).Some? then Says(notice, h).value else Lookup(known, h)
  {
    if notice.Added? {
      AddAllSays(known, notice.sensors, h);
    }
  }

  // ---- Runs ------------------------------------------------------------------------------------------

  /** `inFlight` holds the notices of the calls that have left the mutex and not yet told the framework, in
      the order in which they held it. */
  datatype State = State(table: Sensors, known: Sensors, inFlight: seq<Notice>)

  datatype Step =
    | ConnectSection(subHal: nat, sensors: seq<SensorInfo>)
    | DisconnectSection(subHal: nat, handles: seq<Handle>)
    | Notify(k: nat)

  /** Calls of all sub-HALs may overlap, those of one with each other too, and notices may arrive in any
      order. */
  predicate Enabled(s: State, step: Step) {
    step.Notify? ==> step.k < |s.inFlight|
  }

  /** The notice that a locked section leaves to give. */
  function MadeBy(s: State, step: Step): seq<Notice> {
    match step
    case ConnectSection(i, sensors) => [Added(i, Admitted(sensors, i))]
    case DisconnectSection(i, handles) => [Removed(i, Disconnect(s.table, handles, i).1)]
    case Notify(_) => []
  }

  function Apply(s: State, step: Step): State
    requires Enabled(s, step)
  {
    match step
    case ConnectSection(i, sensors) =>
      s.(table := Connect(s.table, sensors, i), inFlight := s.inFlight + MadeBy(s, step))
    case DisconnectSection(i, handles) =>
      s.(table := Disconnect(s.table, handles, i).0, inFlight := s.inFlight + MadeBy(s, step))
    case Notify(k) => s.(known := Hear(s.known, s.inFlight[k]), inFlight := Without(s.inFlight, k))
  }

  predicate Feasible(s: State, steps: seq<Step>)
    decreases |steps|
  {
    steps == [] || (Enabled(s, steps[0]) && Feasible(Apply(s, steps[0]), steps[1..]))
  }

  function Run(s: State, steps: seq<Step>): State
    requires Feasible(s, steps)
    decreases |steps|
  {
    if steps == [] then s else Run(Apply(s, steps[0]), steps[1..])
  }

  /** A section changes the table as its notice says, and its notice is about its sub-HAL's own handles. */
  lemma SectionSays(s: State, step: Step)
    requires !step.Notify?
    ensures |MadeBy(s, step)| == 1 && Apply(s, step).table == Hear(s.table, MadeBy(s, step)[0])
    ensures MadeBy(s, step)[0].subHal == step.subHal && Own(MadeBy(s, step)[0])
  {
    match step
    case ConnectSection(i, sensors) =>
      ConnectMeansAdded(s.table, sensors, i);
      forall h | Says(MadeBy(s, step)[0], h).Some? ensures TopByte(h) == i % BYTE {
        AnnouncedIsOwn(Admitted(sensors, i), i, h);
      }
    case DisconnectSection(i, handles) =>
      DisconnectMeansRemoved(s.table, handles, i);
  }

  ghost predicate Own(notice: Notice) {
    forall h | Says(notice, h).Some? :: TopByte(h) == notice.subHal % BYTE
  }

  lemma {:induction false} AnnouncedIsOwn(sensors: seq<SensorInfo>, subHal: nat, h: Handle)
    requires AllOwnedBy(HandlesOf(sensors), subHal) && LastInfo(sensors, h).Some?
    ensures TopByte(h) == subHal % BYTE
  {
    assert HandlesOf(sensors)[|sensors| - 1] == Last(sensors).sensorHandle;
    if Last(sensors).sensorHandle != h {
      assert HandlesOf(Front(sensors)) == Front(HandlesOf(sensors));
      AnnouncedIsOwn(Front(sensors), subHal, h);
    }
  }

  // ---- Notices that may cross ------------------------------------------------------------------------

  /** Of every handle that both speak of, they say the same. */
  ghost predicate Commute(a: Notice, b: Notice) {
    forall h: Handle | Says(a, h).Some? && Says(b, h).Some? :: Says(a, h) == Says(b, h)
  }

  lemma HearBoth(known: Sensors, a: Notice, b: Notice, h: Handle)
    ensures Lookup(Hear(Hear(known, a), b), h)
            == if Says(b, h).Some? then Says(b, h).value
               else if Says(a, h).Some? then Says(a, h).value else Lookup(known, h)
  {
    HearSays(known, a, h);
    HearSays(Hear(known, a), b, h);
  }

  /** Two notices may cross exactly when, of every handle in both, they say the same: both that it is gone,
      or both that it is the same sensor. What the framework knew before makes no difference. */
  lemma CrossingIff(known: Sensors, a: Notice, b: Notice)
    ensures Hear(Hear(known, a), b) == Hear(Hear(known, b), a) <==> Commute(a, b)
  {
    var ab, ba := Hear(Hear(known, a), b), Hear(Hear(known, b), a);
    if Commute(a, b) {
      forall h: Handle ensures Lookup(ab, h) == Lookup(ba, h) {
        HearBoth(known, a, b, h);
        HearBoth(known, b, a, h);
      }
      SameSensors(ab, ba);
    } else {
      var h: Handle :| Says(a, h).Some? && Says(b, h).Some? && Says(a, h) != Says(b, h);
      HearBoth(known, a, b, h);
      HearBoth(known, b, a, h);
      assert Lookup(ab, h) != Lookup(ba, h);
    }
  }

  function HearAll(known: Sensors, notices: seq<Notice>): Sensors {
    if notices == [] then known else Hear(HearAll(known, Front(notices)), Last(notices))
  }

  /** The notice about to be given overtakes only notices that it may cross. */
  ghost predicate Harmless(s: State, step: Step)
    requires Enabled(s, step)
  {
    step.Notify? ==> forall j | 0 <= j < step.k :: Commute(s.inFlight[j], s.inFlight[step.k])
  }

  ghost predicate HarmlessRun(s: State, steps: seq<Step>)
    requires Feasible(s, steps)
    decreases |steps|
  {
    steps == [] || (Harmless(s, steps[0]) && HarmlessRun(Apply(s, steps[0]), steps[1..]))
  }

  /** A notice that commutes with all before it may be heard first. */
  lemma {:induction false} HearLastFirst(known: Sensors, notices: seq<Notice>, n: Notice)
    requires forall j | 0 <= j < |notices| :: Commute(notices[j], n)
    ensures HearAll(known, notices + [n]) == HearAll(Hear(known, n), notices)
  {
    assert Front(notices + [n]) == notices;
    if notices != [] {
      var front := Front(notices);
      assert forall j | 0 <= j < |front| :: front[j] == notices[j];
      HearLastFirst(known, front, n);
      assert Front(front + [n]) == front;
      assert Commute(notices[|front|], n);
      CrossingIff(HearAll(known, front), Last(notices), n);
    }
  }

  lemma {:induction false} HearOvertaking(known: Sensors, notices: seq<Notice>, k: nat)
    requires k < |notices| && forall j | 0 <= j < k :: Commute(notices[j], notices[k])
    ensures HearAll(known, notices) == HearAll(Hear(known, notices[k]), Without(notices, k))
    decreases |notices|
  {
    var front := Front(notices);
    if k == |notices| - 1 {
      assert Without(notices, k) == front && front + [notices[k]] == notices;
      HearLastFirst(known, front, notices[k]);
    } else {
      assert forall j | 0 <= j <= k :: front[j] == notices[j];
      HearOvertaking(known, front, k);
      assert Front(Without(notices, k)) == Without(front, k);
      assert Last(Without(notices, k)) == Last(notices);
    }
  }

  /** What is in flight would, heard in order, bring the framework up to date. */
  ghost predicate Consistent(s: State) {
    HearAll(s.known, s.inFlight) == s.table
  }

  lemma StepConsistent(s: State, step: Step)
    requires Consistent(s) && Enabled(s, step) && Harmless(s, step)
    ensures Consistent(Apply(s, step))
  {
    if step.Notify? {
      HearOvertaking(s.known, s.inFlight, step.k);
    } else {
      SectionSays(s, step);
      var s' := Apply(s, step);
      assert Front(s'.inFlight) == s.inFlight && Last(s'.inFlight) == MadeBy(s, step)[0];
    }
  }

  /** In every interleaving in which notices overtake only those they may cross: whenever no call is in
      flight, the framework knows exactly the sensors in the table, each as it is there. */
  lemma {:induction false} FrameworkAgrees(s: State, steps: seq<Step>)
    requires Consistent(s) && Feasible(s, steps) && HarmlessRun(s, steps)
    ensures Consistent(Run(s, steps))
    ensures Run(s, steps).inFlight == [] ==> Run(s, steps).known == Run(s, steps).table
    decreases |steps|
  {
    if steps != [] {
      StepConsistent(s, steps[0]);
      FrameworkAgrees(Apply(s, steps[0]), steps[1..]);
    }
  }

  // ---- Sub-HALs whose notices arrive in order ----------------------------------------------------------

  ghost predicate FewSubHals(steps: seq<Step>) {
    forall step | step in steps && !step.Notify? :: step.subHal < BYTE
  }

  ghost predicate OwnNotices(s: State) {
    forall k | 0 <= k < |s.inFlight| :: s.inFlight[k].subHal < BYTE && Own(s.inFlight[k])
  }

  /** Each sub-HAL's notices arrive in the order of its calls; different sub-HALs interleave freely. */
  ghost predicate OrderedRun(s: State, steps: seq<Step>)
    requires Feasible(s, steps)
    decreases |steps|
  {
    steps == [] || ((steps[0].Notify? ==> FirstOfItsSubHal(s, steps[0].k))
                    && OrderedRun(Apply(s, steps[0]), steps[1..]))
  }

  ghost predicate FirstOfItsSubHal(s: State, k: nat)
    requires k < |s.inFlight|
  {
    forall j | 0 <= j < k :: s.inFlight[j].subHal != s.inFlight[k].subHal
  }

  lemma OtherSubHalsCommute(a: Notice, b: Notice)
    requires Own(a) && Own(b) && a.subHal < BYTE && b.subHal < BYTE && a.subHal != b.subHal
    ensures Commute(a, b)
  {
    forall h: Handle ensures Says(a, h).None? || Says(b, h).None? {
      assert Says(a, h).Some? ==> TopByte(h) == a.subHal;
      assert Says(b, h).Some? ==> TopByte(h) == b.subHal;
    }
  }

  lemma WithoutAt<T>(s: seq<T>, k: nat)
    requires k < |s|
    ensures forall j | 0 <= j < |s| - 1 :: Without(s, k)[j] == s[if j < k then j else j + 1]
  {
  }

  lemma OwnNoticesStep(s: State, step: Step)
    requires OwnNotices(s) && Enabled(s, step) && (!step.Notify? ==> step.subHal < BYTE)
    ensures OwnNotices(Apply(s, step))
  {
    if step.Notify? {
      WithoutAt(s.inFlight, step.k);
    } else {
      SectionSays(s, step);
    }
  }

  /** With up to 256 sub-HALs, order within each is enough. */
  lemma {:induction false} OrderedRunIsHarmless(s: State, steps: seq<Step>)
    requires Feasible(s, steps) && OrderedRun(s, steps) && OwnNotices(s) && FewSubHals(steps)
    ensures HarmlessRun(s, steps)
    decreases |steps|
  {
    if steps != [] {
      if steps[0].Notify? {
        forall j | 0 <= j < steps[0].k ensures Commute(s.inFlight[j], s.inFlight[steps[0].k]) {
          OtherSubHalsCommute(s.inFlight[j], s.inFlight[steps[0].k]);
        }
      }
      assert steps[0] in steps;
      OwnNoticesStep(s, steps[0]);
      OrderedRunIsHarmless(Apply(s, steps[0]), steps[1..]);
    }
  }

  /** Each sub-HAL makes its next call only when the last one has returned. */
  ghost predicate SerialRun(s: State, steps: seq<Step>)
    requires Feasible(s, steps)
    decreases |steps|
  {
    steps == [] || ((!steps[0].Notify? ==> forall n | n in s.inFlight :: n.subHal != steps[0].subHal)
                    && SerialRun(Apply(s, steps[0]), steps[1..]))
  }

  ghost predicate OneEach(s: State) {
    forall j, k | 0 <= j < k < |s.inFlight| :: s.inFlight[j].subHal != s.inFlight[k].subHal
  }

  /** Serial calls leave nothing to overtake. */
  lemma {:induction false} SerialRunIsOrdered(s: State, steps: seq<Step>)
    requires Feasible(s, steps) && SerialRun(s, steps) && OneEach(s)
    ensures OrderedRun(s, steps)
    decreases |steps|
  {
    if steps != [] {
      if steps[0].Notify? {
        WithoutAt(s.inFlight, steps[0].k);
      } else {
        SectionSays(s, steps[0]);
      }
      SerialRunIsOrdered(Apply(s, steps[0]), steps[1..]);
    }
  }

  // ---- Exactly when the two sides agree ----------------------------------------------------------------

  /** The notices that a run's sections make, in the order in which they held the mutex. */
  function Made(s: State, steps: seq<Step>): seq<Notice>
    requires Feasible(s, steps)
    decreases |steps|
  {
    if steps == [] then [] else MadeBy(s, steps[0]) + Made(Apply(s, steps[0]), steps[1..])
  }

  /** The notices that the framework hears, in that order. */
  function Heard(s: State, steps: seq<Step>): seq<Notice>
    requires Feasible(s, steps)
    decreases |steps|
  {
    if steps == [] then [] else HeardBy(s, steps[0]) + Heard(Apply(s, steps[0]), steps[1..])
  }

  function HeardBy(s: State, step: Step): seq<Notice>
    requires Enabled(s, step)
  {
    if step.Notify? then [s.inFlight[step.k]] else []
  }

  /** What the last notice about `h` says of it, if there is one. */
  function LastWord(notices: seq<Notice>, h: Handle): Option<Option<SensorInfo>> {
    if notices == [] then None
    else if Says(Last(notices), h).Some? then Says(Last(notices), h)
    else LastWord(Front(notices), h)
  }

  lemma {:induction false} LastWordDecides(known: Sensors, notices: seq<Notice>, h: Handle)
    ensures Lookup(HearAll(known, notices), h)
            == if LastWord(notices, h).Some? then LastWord(notices, h).value else Lookup(known, h)
  {
    if notices != [] {
      LastWordDecides(known, Front(notices), h);
      HearSays(HearAll(known, Front(notices)), Last(notices), h);
    }
  }

  lemma {:induction false} HearAllConcat(known: Sensors, a: seq<Notice>, b: seq<Notice>)
    ensures HearAll(known, a + b) == HearAll(HearAll(known, a), b)
  {
    if b == [] {
      assert a + b == a;
    } else {
      HearAllConcat(known, a, Front(b));
      assert Front(a + b) == a + Front(b);
    }
  }

  lemma HearOne(known: Sensors, notices: seq<Notice>)
    requires |notices| == 1
    ensures HearAll(known, notices) == Hear(known, notices[0])
  {
    assert Front(notices) == [];
  }

  lemma StepHears(s: State, step: Step)
    requires Enabled(s, step)
    ensures Apply(s, step).table == HearAll(s.table, MadeBy(s, step))
    ensures Apply(s, step).known == HearAll(s.known, HeardBy(s, step))
  {
    if step.Notify? {
      HearOne(s.known, HeardBy(s, step));
    } else {
      SectionSays(s, step);
      HearOne(s.table, MadeBy(s, step));
    }
  }

  /** The table is what its sections have said, and the framework's view is what it has heard. */
  lemma {:induction false} ViewsAreWords(s: State, steps: seq<Step>)
    requires Feasible(s, steps)
    ensures Run(s, steps).table == HearAll(s.table, Made(s, steps))
    ensures Run(s, steps).known == HearAll(s.known, Heard(s, steps))
    decreases |steps|
  {
    if steps != [] {
      var s', tail := Apply(s, steps[0]), steps[1..];
      StepHears(s, steps[0]);
      ViewsAreWords(s', tail);
      HearAllConcat(s.table, MadeBy(s, steps[0]), Made(s', tail));
      HearAllConcat(s.known, HeardBy(s, steps[0]), Heard(s', tail));
    }
  }

  /** The last notice made about `h` and the last one heard say the same of it, where none is what both
      sides knew before. */
  predicate SameWord(s: State, steps: seq<Step>, h: Handle)
    requires Feasible(s, steps)
  {
    var made, heard := LastWord(Made(s, steps), h), LastWord(Heard(s, steps), h);
    (if made.Some? then made.value else Lookup(s.known, h)) == if heard.Some? then heard.value else Lookup(s.known, h)
  }

  lemma SameWordIff(s: State, steps: seq<Step>, h: Handle)
    requires Feasible(s, steps) && s.known == s.table
    ensures SameWord(s, steps, h) <==> Lookup(Run(s, steps).known, h) == Lookup(Run(s, steps).table, h)
  {
    ViewsAreWords(s, steps);
    LastWordDecides(s.known, Made(s, steps), h);
    LastWordDecides(s.known, Heard(s, steps), h);
  }

  /** In any interleaving whatever, started in agreement: the framework knows exactly the sensors in the
      table, each as it is there, if and only if, for every handle, the last notice made about it and the
      last one heard say the same. */
  lemma AgreeIff(s: State, steps: seq<Step>)
    requires Feasible(s, steps) && s.known == s.table
    ensures Run(s, steps).known == Run(s, steps).table <==> forall h: Handle :: SameWord(s, steps, h)
  {
    forall h: Handle
      ensures SameWord(s, steps, h) <==> Lookup(Run(s, steps).known, h) == Lookup(Run(s, steps).table, h)
    {
      SameWordIff(s, steps, h);
    }
    if forall h: Handle :: SameWord(s, steps, h) {
      SameSensors(Run(s, steps).known, Run(s, steps).table);
    }
  }

  // ---- With no call in flight --------------------------------------------------------------------------

  lemma WithoutOne<T>(s: seq<T>, k: nat)
    requires k < |s|
    ensures multiset(s) == multiset(Without(s, k)) + multiset{s[k]}
  {
    assert s == s[..k] + [s[k]] + s[k + 1..];
  }

  lemma StepConservesNotices(s: State, step: Step)
    requires Enabled(s, step)
    ensures multiset(s.inFlight) + multiset(MadeBy(s, step))
            == multiset(Apply(s, step).inFlight) + multiset(HeardBy(s, step))
  {
    if step.Notify? {
      WithoutOne(s.inFlight, step.k);
    }
  }

  lemma Exchange<T>(a: multiset<T>, made: multiset<T>, b: multiset<T>, heard: multiset<T>,
                    made': multiset<T>, c: multiset<T>, heard': multiset<T>)
    requires a + made == b + heard && b + made' == c + heard'
    ensures a + (made + made') == c + (heard + heard')
  {
    forall x: T ensures (a + (made + made'))[x] == (c + (heard + heard'))[x] {
      assert (a + made)[x] == (b + heard)[x] && (b + made')[x] == (c + heard')[x];
    }
  }

  /** No notice gets lost, and none is given twice. */
  lemma {:induction false} NoticesConserved(s: State, steps: seq<Step>)
    requires Feasible(s, steps)
    ensures multiset(s.inFlight) + multiset(Made(s, steps))
            == multiset(Run(s, steps).inFlight) + multiset(Heard(s, steps))
    decreases |steps|
  {
    if steps != [] {
      var s', tail := Apply(s, steps[0]), steps[1..];
      StepConservesNotices(s, steps[0]);
      NoticesConserved(s', tail);
      Exchange(multiset(s.inFlight), multiset(MadeBy(s, steps[0])), multiset(s'.inFlight),
               multiset(HeardBy(s, steps[0])), multiset(Made(s', tail)), multiset(Run(s', tail).inFlight),
               multiset(Heard(s', tail)));
    }
  }

  lemma {:induction false} HasLastWord(notices: seq<Notice>, h: Handle)
    ensures LastWord(notices, h).Some? <==> exists n :: n in notices && Says(n, h).Some?
  {
    if notices != [] {
      HasLastWord(Front(notices), h);
      assert forall n :: n in notices <==> n in Front(notices) || n == Last(notices);
    }
  }

  lemma WordsTogether(made: seq<Notice>, heard: seq<Notice>, h: Handle)
    requires multiset(made) == multiset(heard)
    ensures LastWord(made, h).Some? <==> LastWord(heard, h).Some?
  {
    HasLastWord(made, h);
    HasLastWord(heard, h);
    assert forall n :: n in made <==> n in multiset(made);
    assert forall n :: n in heard <==> n in multiset(heard);
  }

  predicate SameLastWord(s: State, steps: seq<Step>, h: Handle)
    requires Feasible(s, steps)
  {
    LastWord(Made(s, steps), h) == LastWord(Heard(s, steps), h)
  }

  lemma SettledWord(s: State, steps: seq<Step>, h: Handle)
    requires Feasible(s, steps) && s.inFlight == [] && Run(s, steps).inFlight == []
    ensures SameWord(s, steps, h) <==> SameLastWord(s, steps, h)
  {
    NoticesConserved(s, steps);
    var none: multiset<Notice> := multiset{};
    assert multiset(Made(s, steps)) == none + multiset(Made(s, steps)) == none + multiset(Heard(s, steps));
    WordsTogether(Made(s, steps), Heard(s, steps), h);
  }

  /** From one state with nothing in flight to another, started in agreement, calls overlapping and notices
      arriving as they may: the framework knows exactly the sensors in the table, each as it is there, if
      and only if, for every handle, the last notice made about it says what the last one heard says. */
  lemma SettledAgreeIff(s: State, steps: seq<Step>)
    requires Feasible(s, steps) && s.known == s.table
    requires s.inFlight == [] && Run(s, steps).inFlight == []
    ensures Run(s, steps).known == Run(s, steps).table <==> forall h: Handle :: SameLastWord(s, steps, h)
  {
    AgreeIff(s, steps);
    forall h: Handle ensures SameWord(s, steps, h) <==> SameLastWord(s, steps, h) {
      SettledWord(s, steps, h);
    }
  }

  // ---- A run that ends in disagreement -----------------------------------------------------------------

  const NOTHING := State(map[], map[], [])

  /** One sub-HAL connects a sensor and disconnects it again before the first notice is out. */
  function Overlapping(info: SensorInfo, subHal: nat): seq<Step> {
    [ConnectSection(subHal, [info]), DisconnectSection(subHal, [info.sensorHandle])]
  }

  function Stamped(info: SensorInfo, subHal: nat): SensorInfo {
    info.(sensorHandle := SetSubHalIndex(info.sensorHandle, subHal))
  }

  lemma RunUnfolds(s: State, step: Step, steps: seq<Step>)
    requires Enabled(s, step)
    ensures Feasible(s, [step] + steps) <==> Feasible(Apply(s, step), steps)
    ensures Feasible(Apply(s, step), steps) ==> Run(s, [step] + steps) == Run(Apply(s, step), steps)
  {
    assert ([step] + steps)[1..] == steps;
  }

  lemma OneSensor(info: SensorInfo, subHal: nat)
    requires SubHalIndexIsClear(info.sensorHandle)
    ensures var sensor := Stamped(info, subHal);
            var table := Connect(map[], [info], subHal);
            && table == map[sensor.sensorHandle := sensor] && Admitted([info], subHal) == [sensor]
            && Disconnect(table, [info.sensorHandle], subHal) == (map[], [sensor.sensorHandle])
            && AddAll(map[], [sensor]) == table
  {
    var sensor := Stamped(info, subHal);
    var key := sensor.sensorHandle;
    var none: Sensors := map[];
    assert Front([info]) == [] && Front([info.sensorHandle]) == [] && Front([sensor]) == [];
    assert Connect(none, [], subHal) == none == AddAll(none, []);
    var table := none[key := sensor];
    assert Connect(none, [info], subHal) == table == map[key := sensor];
    assert AddAll(none, [sensor]) == table;
    var handles := [info.sensorHandle];
    assert Last(handles) == info.sensorHandle && Disconnect(table, [], subHal) == (table, []);
    assert Disconnect(table, handles, subHal) == (table - {key}, [] + [key]);
    assert table - {key} == none && [] + [key] == [key];
  }

  lemma SectionsOfOneSensor(info: SensorInfo, subHal: nat)
    requires SubHalIndexIsClear(info.sensorHandle)
    ensures var sensor := Stamped(info, subHal);
            var connect, disconnect := Overlapping(info, subHal)[0], Overlapping(info, subHal)[1];
            Apply(Apply(NOTHING, connect), disconnect)
            == State(map[], map[], [Added(subHal, [sensor]), Removed(subHal, [sensor.sensorHandle])])
  {
    OneSensor(info, subHal);
    var sensor := Stamped(info, subHal);
    var added, removed := Added(subHal, [sensor]), Removed(subHal, [sensor.sensorHandle]);
    assert [] + [added] == [added] && [added] + [removed] == [added, removed];
    var s1 := Apply(NOTHING, Overlapping(info, subHal)[0]);
    assert s1 == State(map[sensor.sensorHandle := sensor], map[], [added]);
  }

  lemma CrossedNotices(s: State, subHal: nat, sensor: SensorInfo)
    requires s == State(map[], map[], [Added(subHal, [sensor]), Removed(subHal, [sensor.sensorHandle])])
    requires AddAll(map[], [sensor]) == map[sensor.sensorHandle := sensor]
    ensures Feasible(s, [Notify(1), Notify(0)])
    ensures Run(s, [Notify(1), Notify(0)]) == State(map[], map[sensor.sensorHandle := sensor], [])
  {
    var added, removed := Added(subHal, [sensor]), Removed(subHal, [sensor.sensorHandle]);
    var s1 := Apply(s, Notify(1));
    assert Without([added, removed], 1) == [added];
    assert Hear(map[], removed) == map[];
    assert s1 == State(map[], map[], [added]);
    var s2 := Apply(s1, Notify(0));
    assert Without([added], 0) == [];
    assert s2 == State(map[], map[sensor.sensorHandle := sensor], []);
    RunUnfolds(s1, Notify(0), []);
    RunUnfolds(s, Notify(1), [Notify(0)]);
    assert [Notify(1)] + [Notify(0)] == [Notify(1), Notify(0)];
    assert [Notify(0)] + [] == [Notify(0)];
  }

  /** A sub-HAL that overlaps its own calls can be heard out of order: it connects and disconnects one
      sensor, the notices arrive the other way round, and with nothing left in flight the framework keeps
      a sensor that the table has lost. */
  lemma OverlappingCallsDiverge(info: SensorInfo, subHal: nat)
    requires SubHalIndexIsClear(info.sensorHandle)
    ensures var sensor, steps := Stamped(info, subHal), Overlapping(info, subHal) + [Notify(1), Notify(0)];
            && Consistent(NOTHING) && Feasible(NOTHING, steps)
            && Run(NOTHING, steps) == State(map[], map[sensor.sensorHandle := sensor], [])
  {
    var calls, notices := Overlapping(info, subHal), [Notify(1), Notify(0)];
    var s1 := Apply(NOTHING, calls[0]);
    OneSensor(info, subHal);
    SectionsOfOneSensor(info, subHal);
    CrossedNotices(Apply(s1, calls[1]), subHal, Stamped(info, subHal));
    RunUnfolds(s1, calls[1], notices);
    RunUnfolds(NOTHING, calls[0], [calls[1]] + notices);
    assert calls + notices == [calls[0]] + ([calls[1]] + notices);
  }
}
