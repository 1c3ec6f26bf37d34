/** The table of static sensors: who reported each one, under which key it is stored, and which
    sub-HAL keeps its direct-channel flags. */
module SensorTable {
  import opened Wrappers
  import opened Handles

  /** A flag word, as the set of its one bits. */
  type Flags = set<nat>

  const WAKE_UP: Flags := {0}
  const MASK_DIRECT_REPORT: Flags := {7, 8, 9}
  const MASK_DIRECT_CHANNEL: Flags := {10, 11}
  const DIRECT_MASK: Flags := MASK_DIRECT_REPORT + MASK_DIRECT_CHANNEL

  datatype SensorType = PickUpGesture | OtherType(code: int)

  /** A sensor's type string: the two that the proxy singles out, or any other. */
  datatype TypeString = WristTiltString | PickUpString | OtherString(name: string)

  datatype SensorInfo = SensorInfo(sensorHandle: Handle, flags: Flags, sensorType: SensorType, typeString: TypeString)

  /** What a lookup of an unknown handle default-constructs. */
  const DEFAULT_INFO := SensorInfo(0, {}, OtherType(0), OtherString(""))

  type Sensors = map<Handle, SensorInfo>

  function InfoOf(sensors: Sensors, h: Handle): SensorInfo {
    if h in sensors then sensors[h] else DEFAULT_INFO
  }

  predicate IsWakeUp(sensors: Sensors, h: Handle) {
    InfoOf(sensors, h).flags * WAKE_UP != {}
  }

  /** One sensor, as reported by the sub-HAL at position `subHal`. */
  datatype Report = Report(subHal: nat, info: SensorInfo) {
    predicate Accepted() {
      SubHalIndexIsClear(info.sensorHandle)
    }

    predicate Capable() {
      Accepted() && info.flags * DIRECT_MASK != {}
    }

    function Key(): Handle {
      SetSubHalIndex(info.sensorHandle, subHal)
    }

    function Stamp(flags: Flags): SensorInfo {
      Standardize(info.(sensorHandle := Key(), flags := flags))
    }

    /** What the table should hold for this report once `direct` is the chosen sub-HAL. */
    function Stored(direct: Option<nat>): SensorInfo {
      var flags := if direct == Some(subHal) then info.flags else info.flags - DIRECT_MASK;
      Stamp(flags)
    }
  }

  function Standardize(info: SensorInfo): (r: SensorInfo)
    ensures r.flags == info.flags && r.sensorHandle == info.sensorHandle
  {
    if info.typeString == WristTiltString
    then info.(sensorType := PickUpGesture, typeString := PickUpString)
    else info
  }

  /** The direct-channel sub-HAL after one sensor of `subHal` has been looked at. */
  function ChooseDirect(direct: Option<nat>, flags: Flags, subHal: nat): Option<nat> {
    if direct == None && flags * DIRECT_MASK != {} then Some(subHal) else direct
  }

  function DirectFlags(direct: Option<nat>, flags: Flags, subHal: nat): Flags {
    if direct != None && direct != Some(subHal) then flags - DIRECT_MASK else flags
  }

  datatype Table = Table(sensors: Sensors, direct: Option<nat>)

  function AddReport(t: Table, r: Report): Table {
    if !r.Accepted() then t
    else
      var flags := DirectFlags(t.direct, r.info.flags, r.subHal);
      Table(t.sensors[r.Key() := r.Stamp(flags)],
            ChooseDirect(t.direct, r.info.flags, r.subHal))
  }

  function AddReports(t: Table, reports: seq<Report>): Table {
    if reports == [] then t
    else AddReport(AddReports(t, reports[..|reports| - 1]), reports[|reports| - 1])
  }

  /** The reports of one sub-HAL, tagged with its position. */
  function Tagged(list: seq<SensorInfo>, subHal: nat): seq<Report> {
    seq(|list|, j requires 0 <= j < |list| => Report(subHal, list[j]))
  }

  /** Every report, sub-HAL by sub-HAL. */
  function Reports(lists: seq<seq<SensorInfo>>): seq<Report> {
    if lists == [] then []
    else Reports(lists[..|lists| - 1]) + Tagged(lists[|lists| - 1], |lists| - 1)
  }

  lemma AddNextReport(before: seq<Report>, list: seq<SensorInfo>, j: nat, subHal: nat)
    requires j < |list|
    ensures AddReports(EMPTY_TABLE, before + Tagged(list[..j + 1], subHal))
            == AddReport(AddReports(EMPTY_TABLE, before + Tagged(list[..j], subHal)), Report(subHal, list[j]))
  {
    var reports := before + Tagged(list[..j + 1], subHal);
    assert reports[..|reports| - 1] == before + Tagged(list[..j], subHal);
    assert reports[|reports| - 1] == Report(subHal, list[j]);
  }

  const EMPTY_TABLE := Table(map[], None)

  function InitialTable(lists: seq<seq<SensorInfo>>): Table {
    AddReports(EMPTY_TABLE, Reports(lists))
  }

  ghost predicate IsReport(lists: seq<seq<SensorInfo>>, r: Report) {
    r.subHal < |lists| && r.info in lists[r.subHal]
  }

  lemma {:induction false} ReportsAreExactly(lists: seq<seq<SensorInfo>>, r: Report)
    ensures r in Reports(lists) <==> IsReport(lists, r)
  {
    if lists != [] {
      var n := |lists| - 1;
      ReportsAreExactly(lists[..n], r);
      var tagged := Tagged(lists[n], n);
      if r.subHal == n && r.info in lists[n] {
        var j :| 0 <= j < |lists[n]| && lists[n][j] == r.info;
        assert tagged[j] == r;
      }
    }
  }

  lemma {:induction false} ReportsInSubHalOrder(lists: seq<seq<SensorInfo>>)
    ensures forall p, q :: 0 <= p < q < |Reports(lists)| ==> Reports(lists)[p].subHal <= Reports(lists)[q].subHal
    ensures forall p :: 0 <= p < |Reports(lists)| ==> Reports(lists)[p].subHal < |lists|
  {
    if lists != [] {
      ReportsInSubHalOrder(lists[..|lists| - 1]);
    }
  }

  /** `p` is the last accepted report stored under `key`. */
  ghost predicate IsLastReport(reports: seq<Report>, p: int, key: Handle) {
    && 0 <= p < |reports|
    && reports[p].Accepted() && reports[p].Key() == key
    && forall q :: p < q < |reports| && reports[q].Accepted() ==> reports[q].Key() != key
  }

  ghost predicate IsFirstCapable(reports: seq<Report>, p: int) {
    && 0 <= p < |reports|
    && reports[p].Capable()
    && forall q :: 0 <= q < p ==> !reports[q].Capable()
  }

  lemma ClearingNothing(flags: Flags)
    requires flags * DIRECT_MASK == {}
    ensures flags - DIRECT_MASK == flags
  {
  }

  /** A report that cannot use the direct channel is stored alike whoever is chosen. */
  lemma IncapableStoredAlike(r: Report, d: Option<nat>, d': Option<nat>)
    requires r.info.flags * DIRECT_MASK == {}
    ensures r.Stored(d) == r.Stored(d')
  {
    ClearingNothing(r.info.flags);
  }

  /** What the table holds under one key after any list of reports. */
  ghost predicate EntryMatches(t: Table, reports: seq<Report>, key: Handle) {
    key in t.sensors
    && exists p: int :: IsLastReport(reports, p, key) && t.sensors[key] == reports[p].Stored(t.direct)
  }

  ghost predicate DirectMatches(direct: Option<nat>, reports: seq<Report>) {
    && (direct == None ==> forall p | 0 <= p < |reports| :: !reports[p].Capable())
    && (direct != None ==> exists p: int :: IsFirstCapable(reports, p) && reports[p].subHal == direct.value)
  }

  ghost predicate TableMatches(t: Table, reports: seq<Report>) {
    && (forall p | 0 <= p < |reports| && reports[p].Accepted() :: reports[p].Key() in t.sensors)
    && (forall key | key in t.sensors :: EntryMatches(t, reports, key))
    && DirectMatches(t.direct, reports)
  }

  lemma DirectStepMatches(t: Table, reports: seq<Report>, r: Report)
    requires DirectMatches(t.direct, reports)
    ensures DirectMatches(AddReport(t, r).direct, reports + [r])
  {
    var all, direct := reports + [r], AddReport(t, r).direct;
    if t.direct != None {
      var p: int :| IsFirstCapable(reports, p) && reports[p].subHal == t.direct.value;
      assert IsFirstCapable(all, p);
    } else if direct != None {
      assert IsFirstCapable(all, |reports|);
    }
  }

  lemma NewEntryMatches(t: Table, reports: seq<Report>, r: Report)
    requires r.Accepted()
    ensures EntryMatches(AddReport(t, r), reports + [r], r.Key())
  {
    assert AddReport(t, r).sensors[r.Key()] == r.Stored(AddReport(t, r).direct);
    assert (reports + [r])[|reports|] == r;
    assert IsLastReport(reports + [r], |reports|, r.Key());
  }

  lemma OldEntryMatches(t: Table, reports: seq<Report>, r: Report, key: Handle)
    requires EntryMatches(t, reports, key) && DirectMatches(t.direct, reports)
    requires r.Accepted() ==> r.Key() != key
    ensures EntryMatches(AddReport(t, r), reports + [r], key)
  {
    var p: int :| IsLastReport(reports, p, key) && t.sensors[key] == reports[p].Stored(t.direct);
    assert IsLastReport(reports + [r], p, key);
    if t.direct != AddReport(t, r).direct {
      IncapableStoredAlike(reports[p], t.direct, AddReport(t, r).direct);
    }
  }

  lemma AddReportMatches(t: Table, reports: seq<Report>, r: Report)
    requires TableMatches(t, reports)
    ensures TableMatches(AddReport(t, r), reports + [r])
  {
    DirectStepMatches(t, reports, r);
    forall key | key in AddReport(t, r).sensors
      ensures EntryMatches(AddReport(t, r), reports + [r], key)
    {
      if r.Accepted() && key == r.Key() {
        NewEntryMatches(t, reports, r);
      } else {
        OldEntryMatches(t, reports, r, key);
      }
    }
  }

  lemma {:induction false} TableMatchesReports(reports: seq<Report>)
    ensures TableMatches(AddReports(EMPTY_TABLE, reports), reports)
  {
    if reports != [] {
      var n := |reports| - 1;
      TableMatchesReports(reports[..n]);
      AddReportMatches(AddReports(EMPTY_TABLE, reports[..n]), reports[..n], reports[n]);
      assert reports[..n] + [reports[n]] == reports;
    }
  }

  /** The first capable report of the list belongs to a sub-HAL and gives it the direct channel. */
  lemma ChosenReport(lists: seq<seq<SensorInfo>>) returns (p: int)
    requires InitialTable(lists).direct != None
    ensures var reports := Reports(lists);
            && IsFirstCapable(reports, p) && IsReport(lists, reports[p])
            && InitialTable(lists).direct == Some(reports[p].subHal)
  {
    var reports := Reports(lists);
    TableMatchesReports(reports);
    p :| IsFirstCapable(reports, p) && reports[p].subHal == InitialTable(lists).direct.value;
    assert reports[p] in reports;
    ReportsAreExactly(lists, reports[p]);
  }

  lemma NoneChosen(lists: seq<seq<SensorInfo>>, r: Report)
    requires InitialTable(lists).direct == None && IsReport(lists, r)
    ensures !r.Capable()
  {
    TableMatchesReports(Reports(lists));
    ReportsAreExactly(lists, r);
  }

  lemma ChosenIsFirst(lists: seq<seq<SensorInfo>>, p: int, r: Report)
    requires IsFirstCapable(Reports(lists), p) && IsReport(lists, r) && r.Capable()
    ensures Reports(lists)[p].subHal <= r.subHal
  {
    var reports := Reports(lists);
    ReportsAreExactly(lists, r);
    ReportsInSubHalOrder(lists);
    var q :| 0 <= q < |reports| && reports[q] == r;
    assert p <= q;
  }

  /** The chosen sub-HAL is the first that reports a capable sensor with a clear handle; there is
      none exactly when no sub-HAL reports one. */
  lemma DirectChannelIsFirstCapable(lists: seq<seq<SensorInfo>>)
    ensures InitialTable(lists).direct == None
            <==> forall r | IsReport(lists, r) :: !r.Capable()
    ensures InitialTable(lists).direct != None ==>
              var i := InitialTable(lists).direct.value;
              && (exists r :: IsReport(lists, r) && r.subHal == i && r.Capable())
              && (forall r | IsReport(lists, r) && r.Capable() :: i <= r.subHal)
  {
    if InitialTable(lists).direct == None {
      forall r | IsReport(lists, r) ensures !r.Capable() {
        NoneChosen(lists, r);
      }
    } else {
      var p := ChosenReport(lists);
      forall r | IsReport(lists, r) && r.Capable() ensures InitialTable(lists).direct.value <= r.subHal {
        ChosenIsFirst(lists, p, r);
      }
    }
  }

  /** For any sub-HAL lists: every stored sensor is the last report made under its key, its direct
      flags survive exactly when its sub-HAL is the chosen one, and no other flag bit moves. */
  lemma DirectChannelExclusive(lists: seq<seq<SensorInfo>>, key: Handle)
    requires key in InitialTable(lists).sensors
    ensures var t := InitialTable(lists);
            exists r :: IsReport(lists, r) && r.Accepted() && r.Key() == key
                        && t.sensors[key] == r.Stored(t.direct)
                        && t.sensors[key].flags - DIRECT_MASK == r.info.flags - DIRECT_MASK
                        && t.sensors[key].flags * DIRECT_MASK
                           == if t.direct == Some(r.subHal) then r.info.flags * DIRECT_MASK else {}
  {
    var t, reports := InitialTable(lists), Reports(lists);
    TableMatchesReports(reports);
    assert EntryMatches(t, reports, key);
    var p: int :| IsLastReport(reports, p, key) && t.sensors[key] == reports[p].Stored(t.direct);
    ReportsAreExactly(lists, reports[p]);
    StoredFlags(reports[p], t.direct);
  }

  lemma StoredFlags(r: Report, direct: Option<nat>)
    ensures r.Stored(direct).flags - DIRECT_MASK == r.info.flags - DIRECT_MASK
    ensures r.Stored(direct).flags * DIRECT_MASK
            == if direct == Some(r.subHal) then r.info.flags * DIRECT_MASK else {}
  {
    var flags := if direct == Some(r.subHal) then r.info.flags else r.info.flags - DIRECT_MASK;
    assert r.Stored(direct).flags == flags;
  }

  /** The table knows wrist-tilt sensors only as pick-up sensors, and leaves every other type alone. */
  lemma PickUpStandardized(lists: seq<seq<SensorInfo>>, key: Handle)
    requires key in InitialTable(lists).sensors
    ensures var stored := InitialTable(lists).sensors[key];
            && stored.typeString != WristTiltString
            && exists r :: IsReport(lists, r) && r.Accepted() && r.Key() == key
                           && if r.info.typeString == WristTiltString
                              then stored.sensorType == PickUpGesture && stored.typeString == PickUpString
                              else stored.sensorType == r.info.sensorType && stored.typeString == r.info.typeString
  {
    DirectChannelExclusive(lists, key);
  }

  /** With at most 128 sub-HALs every key is valid, its top byte names the sub-HAL whose report is
      stored there, and clearing the top byte gives back the handle that sub-HAL reported. */
  lemma KeysRouteHome(lists: seq<seq<SensorInfo>>, key: Handle)
    requires |lists| <= 128
    requires key in InitialTable(lists).sensors
    ensures var t := InitialTable(lists);
            && ExtractSubHalIndex(key) < |lists|
            && t.sensors[key].sensorHandle == key
            && exists info :: info in lists[ExtractSubHalIndex(key)]
                              && info.sensorHandle == ClearSubHalIndex(key)
                              && t.sensors[key] == Report(ExtractSubHalIndex(key), info).Stored(t.direct)
  {
    DirectChannelExclusive(lists, key);
    var t := InitialTable(lists);
    var r :| IsReport(lists, r) && r.Accepted() && r.Key() == key && t.sensors[key] == r.Stored(t.direct);
    SetOnClear(r.info.sensorHandle, r.subHal);
    ExtractUndoesSet(r.info.sensorHandle, r.subHal);
    assert r == Report(ExtractSubHalIndex(key), r.info);
  }

  /** Every accepted report has an entry under its key, which is its own unless another report shares the
      key; and the key routes back to its reporter exactly when that is among the first 128. */
  lemma AcceptedReportsStored(lists: seq<seq<SensorInfo>>, r: Report)
    requires IsReport(lists, r) && r.Accepted()
    requires |lists| < SIZE_T - 128
    ensures r.Key() in InitialTable(lists).sensors
    ensures (forall other | IsReport(lists, other) && other.Accepted() && other.Key() == r.Key() :: other == r) ==>
              InitialTable(lists).sensors[r.Key()] == r.Stored(InitialTable(lists).direct)
    ensures ExtractSubHalIndex(r.Key()) == r.subHal <==> r.subHal < 128
    ensures ClearSubHalIndex(r.Key()) == r.info.sensorHandle
  {
    TableMatchesReports(Reports(lists));
    ReportsAreExactly(lists, r);
    var p :| 0 <= p < |Reports(lists)| && Reports(lists)[p] == r;
    DirectChannelExclusive(lists, r.Key());
    SetOnClear(r.info.sensorHandle, r.subHal);
    ExtractUndoesSet(r.info.sensorHandle, r.subHal);
  }

  // ---- The table, sensor by sensor -----------------------------------------------------------------------

  /** Sensor `j` of sub-HAL `i` has a clear handle and is stamped to `key`. */
  ghost predicate IsEntry(lists: seq<seq<SensorInfo>>, i: int, j: int, key: Handle) {
    && 0 <= i < |lists| && 0 <= j < |lists[i]|
    && SubHalIndexIsClear(lists[i][j].sensorHandle)
    && SetSubHalIndex(lists[i][j].sensorHandle, i) == key
  }

  /** Where the reports of sub-HAL `i` begin. */
  function Offset(lists: seq<seq<SensorInfo>>, i: nat): nat
    requires i <= |lists|
  {
    |Reports(lists[..i])|
  }

  lemma OffsetNext(lists: seq<seq<SensorInfo>>, i: nat)
    requires i < |lists|
    ensures Offset(lists, i + 1) == Offset(lists, i) + |lists[i]|
  {
    assert lists[..i + 1][..i] == lists[..i];
  }

  lemma {:induction false} OffsetGrows(lists: seq<seq<SensorInfo>>, i: nat, k: nat)
    requires i < k <= |lists|
    ensures Offset(lists, i) + |lists[i]| <= Offset(lists, k)
    decreases k
  {
    OffsetNext(lists, k - 1);
    if i < k - 1 {
      OffsetGrows(lists, i, k - 1);
    }
  }

  lemma {:induction false} ReportAt(lists: seq<seq<SensorInfo>>, i: nat, j: nat)
    requires i < |lists| && j < |lists[i]|
    ensures Offset(lists, i) + j < |Reports(lists)|
    ensures Reports(lists)[Offset(lists, i) + j] == Report(i, lists[i][j])
    decreases |lists|
  {
    var n := |lists| - 1;
    if i < n {
      assert lists[..n][..i] == lists[..i];
      ReportAt(lists[..n], i, j);
    } else {
      assert Tagged(lists[n], n)[j] == Report(n, lists[n][j]);
    }
  }

  lemma {:induction false} Located(lists: seq<seq<SensorInfo>>, p: nat) returns (i: nat, j: nat)
    requires p < |Reports(lists)|
    ensures i < |lists| && j < |lists[i]| && p == Offset(lists, i) + j
    decreases |lists|
  {
    var n := |lists| - 1;
    if p < |Reports(lists[..n])| {
      i, j := Located(lists[..n], p);
      assert lists[..n][..i] == lists[..i];
    } else {
      i, j := n, p - |Reports(lists[..n])|;
    }
  }

  /** The last entry for a key, sub-HAL by sub-HAL and in each in list order. */
  ghost predicate IsLastEntry(lists: seq<seq<SensorInfo>>, i: int, j: int, key: Handle) {
    && IsEntry(lists, i, j, key)
    && forall k, l | IsEntry(lists, k, l, key) :: k < i || (k == i && l <= j)
  }

  lemma LastEntryIsLastReport(lists: seq<seq<SensorInfo>>, i: nat, j: nat, key: Handle, p: nat)
    requires IsLastEntry(lists, i, j, key) && IsLastReport(Reports(lists), p, key)
    ensures Reports(lists)[p] == Report(i, lists[i][j])
  {
    ReportAt(lists, i, j);
    var k, l := Located(lists, p);
    ReportAt(lists, k, l);
    assert IsEntry(lists, k, l, key);
    if k < i {
      OffsetGrows(lists, k, i);
    }
    assert p <= Offset(lists, i) + j;
  }

  /** A key is in the table exactly if some sensor with a clear handle is stamped to it. */
  lemma KeysAreStamped(lists: seq<seq<SensorInfo>>, key: Handle)
    ensures key in InitialTable(lists).sensors <==> exists i, j :: IsEntry(lists, i, j, key)
  {
    var t, reports := InitialTable(lists), Reports(lists);
    TableMatchesReports(reports);
    if key in t.sensors {
      var p: nat :| IsLastReport(reports, p, key);
      var i, j := Located(lists, p);
      ReportAt(lists, i, j);
      assert IsEntry(lists, i, j, key);
    }
    if i, j :| IsEntry(lists, i, j, key) {
      ReportAt(lists, i, j);
      assert reports[Offset(lists, i) + j].Accepted() && reports[Offset(lists, i) + j].Key() == key;
    }
  }

  lemma LastEntryStored(lists: seq<seq<SensorInfo>>, i: nat, j: nat, key: Handle)
    requires IsLastEntry(lists, i, j, key)
    ensures var t := InitialTable(lists);
            key in t.sensors && t.sensors[key] == Report(i, lists[i][j]).Stored(t.direct)
  {
    var t, reports := InitialTable(lists), Reports(lists);
    KeysAreStamped(lists, key);
    TableMatchesReports(reports);
    assert EntryMatches(t, reports, key);
    var p: nat :| IsLastReport(reports, p, key) && t.sensors[key] == reports[p].Stored(t.direct);
    LastEntryIsLastReport(lists, i, j, key, p);
  }

  /** What is stored under a key is the last sensor stamped to it, under that handle: its type made a
      pick-up sensor's if it calls itself a wrist-tilt sensor, its direct-channel flags gone unless its
      sub-HAL has the direct channel, and nothing else changed. */
  lemma TableHoldsLastEntries(lists: seq<seq<SensorInfo>>, i: nat, j: nat, key: Handle)
    requires IsLastEntry(lists, i, j, key)
    ensures key in InitialTable(lists).sensors
    ensures var info, stored := lists[i][j], InitialTable(lists).sensors[key];
            && stored.sensorHandle == key
            && (forall b :: b in stored.flags
                  <==> b in info.flags && (7 <= b <= 11 ==> InitialTable(lists).direct == Some(i)))
            && if info.typeString == WristTiltString
               then stored.sensorType == PickUpGesture && stored.typeString == PickUpString
               else stored.sensorType == info.sensorType && stored.typeString == info.typeString
  {
    LastEntryStored(lists, i, j, key);
  }

  /** Some sensor of sub-HAL `i` with a clear handle has a direct-report or direct-channel flag. */
  ghost predicate OffersDirect(lists: seq<seq<SensorInfo>>, i: int)
    requires 0 <= i < |lists|
  {
    exists info, b :: info in lists[i] && SubHalIndexIsClear(info.sensorHandle) && b in info.flags && 7 <= b <= 11
  }

  lemma CapableIsDirect(r: Report)
    ensures r.Capable()
            <==> SubHalIndexIsClear(r.info.sensorHandle) && exists b :: b in r.info.flags && 7 <= b <= 11
  {
    if r.Capable() {
      var b :| b in r.info.flags * DIRECT_MASK;
      assert b in r.info.flags && 7 <= b <= 11;
    }
    forall b | b in r.info.flags && 7 <= b <= 11 ensures b in r.info.flags * DIRECT_MASK {
    }
  }

  lemma OfferIsCapable(lists: seq<seq<SensorInfo>>, k: nat)
    requires k < |lists|
    ensures OffersDirect(lists, k) <==> exists r :: IsReport(lists, r) && r.subHal == k && r.Capable()
  {
    if OffersDirect(lists, k) {
      var info, b :| info in lists[k] && SubHalIndexIsClear(info.sensorHandle) && b in info.flags && 7 <= b <= 11;
      CapableIsDirect(Report(k, info));
      assert IsReport(lists, Report(k, info)) && Report(k, info).Capable();
    }
    if r :| IsReport(lists, r) && r.subHal == k && r.Capable() {
      CapableIsDirect(r);
    }
  }

  /** The direct channel is that of the first sub-HAL which offers one. */
  lemma DirectChannelIsFirstOffer(lists: seq<seq<SensorInfo>>, i: nat)
    ensures InitialTable(lists).direct == Some(i)
            <==> i < |lists| && OffersDirect(lists, i) && forall k | 0 <= k < i :: !OffersDirect(lists, k)
  {
    DirectChannelIsFirstCapable(lists);
    forall k: nat | k < |lists|
      ensures OffersDirect(lists, k) <==> exists r :: IsReport(lists, r) && r.subHal == k && r.Capable()
    {
      OfferIsCapable(lists, k);
    }
    if InitialTable(lists).direct.Some? {
      var c := InitialTable(lists).direct.value;
      assert c < |lists| && OffersDirect(lists, c);
    }
  }
}
