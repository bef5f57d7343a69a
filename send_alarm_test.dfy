/**
 * The test screen's `connectAndSendData`: scan, wait five seconds on a timer,
 * connect to the first `GentlyDevice`, look up the create/update and delete
 * characteristics of the alarm service by exact UUID, write three fixed
 * record lines as raw UTF-8 (no Base64 layer) and then the delete request for
 * alarm 2.
 *
 * Only the scan is inside the `try`: everything after it runs in the timer's
 * callback, so an error thrown there is not caught and raises no alert.
 */
module SendAlarmTestModel {
  import opened Wrappers
  import opened Bytes
  import opened Ble
  import Utf8
  import Decimal
  import Text
  import AlarmRecord
  import AlarmSync

  /** The lines the screen sends: id, `HH:MM:SS` time and flag. */
  const TEST_ALARMS: seq<string> := ["1,07:00:00,1", "2,08:15:30,1", "3,10:30:45,1"]

  /** The id whose deletion is requested. */
  const DELETE_ALARM: string := "2"

  /** The timer that stands in for waiting on the scan. */
  const SCAN_WAIT_MS: nat := 5000

  /**
   * How the library answers each call of one run. Writes are numbered in the
   * order they are issued: the create/update writes 0, 1, ..., then the delete.
   */
  datatype TestReplies = TestReplies(
    scan: Reply<()>,
    discovered: Reply<seq<Peripheral>>,
    connect: Reply<()>,
    services: Reply<seq<Characteristic>>,
    failedWrite: Option<AlarmSync.WriteFailure>)

  /** How a run ends; `Unhandled` is an error thrown inside the timer callback, which nothing catches. */
  datatype TestOutcome =
    | ScanFailed(message: string)
    | DeviceMissing
    | CharacteristicsMissing
    | Unhandled(message: string)
    | Done

  datatype TestResult = TestResult(trace: seq<Event>, outcome: TestOutcome, connectedDevice: Option<string>)

  /** `array.filter(p)`. */
  function Filter<T(!new)>(s: seq<T>, p: T -> bool): (r: seq<T>)
    ensures |r| <= |s|
    ensures forall x :: x in r <==> x in s && p(x)
    decreases |s|
  {
    if |s| == 0 then []
    else (if p(s[0]) then [s[0]] else []) + Filter(s[1..], p)
  }

  /** `find` on a non-empty list looks at the head first. */
  lemma FindCons<T>(s: seq<T>, p: T -> bool)
    requires |s| > 0
    ensures Find(s, p) == if p(s[0]) then Some(s[0]) else Find(s[1..], p)
  {
    if !p(s[0]) {
      match FindIndex(s[1..], p)
      case None =>
      case Some(k) =>
        assert FindIndex(s, p) == Some(k + 1);
    }
  }

  /** Finding in a filtered list is finding the first element that passes both tests. */
  lemma {:induction false} FindAfterFilter<T(!new)>(s: seq<T>, p: T -> bool, q: T -> bool)
    ensures Find(Filter(s, p), q) == Find(s, x => p(x) && q(x))
    decreases |s|
  {
    var both := x => p(x) && q(x);
    if |s| > 0 {
      FindAfterFilter(s[1..], p, q);
      FindCons(s, both);
      if p(s[0]) {
        var f := Filter(s, p);
        assert f == [s[0]] + Filter(s[1..], p);
        FindCons(f, q);
        assert f[1..] == Filter(s[1..], p);
      } else {
        assert Filter(s, p) == Filter(s[1..], p);
      }
    }
  }

  predicate InAlarmService(c: Characteristic) {
    c.service == ALARM_SERVICE_UUID
  }

  /** `alarmService.find(char => char.characteristic === uuid)` after filtering on the exact service UUID. */
  function FindExact(characteristics: seq<Characteristic>, uuid: string): Option<Characteristic> {
    Find(Filter(characteristics, InAlarmService), (c: Characteristic) => c.characteristic == uuid)
  }

  /** The lookup takes the first characteristic whose service and characteristic UUIDs are exactly the ones asked for. */
  lemma FindExactIsFirstMatch(characteristics: seq<Characteristic>, uuid: string)
    ensures var r := FindExact(characteristics, uuid);
      && (r.Some? <==> Characteristic(ALARM_SERVICE_UUID, uuid) in characteristics)
      && (r.Some? ==> r.value == Characteristic(ALARM_SERVICE_UUID, uuid))
  {
    FindAfterFilter(characteristics, InAlarmService, (c: Characteristic) => c.characteristic == uuid);
    var r := FindExact(characteristics, uuid);
    if Characteristic(ALARM_SERVICE_UUID, uuid) in characteristics {
      var i :| 0 <= i < |characteristics| && characteristics[i] == Characteristic(ALARM_SERVICE_UUID, uuid);
      assert InAlarmService(characteristics[i]) && characteristics[i].characteristic == uuid;
    }
  }

  /** A create/update characteristic UUID as a peripheral may report it, in upper case. */
  const UPPER_CASE_CREATE_UPDATE_UUID := "12345678-1234-5678-1234-56789ABCDEF1"

  lemma CreateUpdateUuidHeadIsLowerCase()
    ensures Text.ToLower(CREATE_UPDATE_CHAR_UUID[..29]) == CREATE_UPDATE_CHAR_UUID[..29]
  {
    CreateUpdateUuidIsLowerCase();
    Text.ToLowerPrefix(CREATE_UPDATE_CHAR_UUID, 29);
  }

  lemma HexTailLowers()
    ensures Text.ToLower("ABCDEF1") == "abcdef1"
  {
  }

  /** The upper-case UUID lower-cases to the create/update characteristic UUID. */
  lemma UpperCaseUuidLowers()
    ensures Text.ToLower(UPPER_CASE_CREATE_UPDATE_UUID) == CREATE_UPDATE_CHAR_UUID
  {
    var head := CREATE_UPDATE_CHAR_UUID[..29];
    assert CREATE_UPDATE_CHAR_UUID == head + "abcdef1";
    assert UPPER_CASE_CREATE_UPDATE_UUID == head + "ABCDEF1";
    CreateUpdateUuidHeadIsLowerCase();
    HexTailLowers();
    Text.ToLowerAppend(head, "ABCDEF1");
  }

  /** The exact comparison tells the upper-case UUID from the constant. */
  lemma UpperCaseUuidDiffers()
    ensures UPPER_CASE_CREATE_UPDATE_UUID != CREATE_UPDATE_CHAR_UUID
  {
    assert UPPER_CASE_CREATE_UPDATE_UUID[29] != CREATE_UPDATE_CHAR_UUID[29];
  }

  /**
   * Unlike the alarms screens, the test screen compares UUIDs exactly: a
   * characteristic reported in upper case is matched there and missed here.
   */
  lemma UpperCaseUuidMissed()
    ensures var c := Characteristic(ALARM_SERVICE_UUID, UPPER_CASE_CREATE_UPDATE_UUID);
      && IsCreateUpdateCharIgnoringCase(c)
      && FindExact([c], CREATE_UPDATE_CHAR_UUID) == None
  {
    var c := Characteristic(ALARM_SERVICE_UUID, UPPER_CASE_CREATE_UPDATE_UUID);
    ServiceUuidIsLowerCase();
    UpperCaseUuidLowers();
    UpperCaseUuidDiffers();
    FindExactIsFirstMatch([c], CREATE_UPDATE_CHAR_UUID);
  }

  /** The delete request: the UTF-8 bytes of the decimal id, with no Base64 layer. */
  function DeletePayload(): (bytes: seq<byte>)
    ensures bytes == [0x32]
    ensures Utf8.Decode(bytes) == Some(Decimal.IntToString(2))
  {
    assert Decimal.IntToString(2) == DELETE_ALARM;
    Utf8.EncodeAscii(DELETE_ALARM);
    AlarmRecord.RawPayload(DELETE_ALARM)
  }

  /** The create/update write of line `i`: its raw UTF-8 bytes to the create/update characteristic. */
  function CreateWrite(lines: seq<string>, i: nat, peripheral: string, ch: Characteristic): Event
    requires i < |lines|
  {
    Write(peripheral, ch.service, ch.characteristic, AlarmRecord.RawPayload(lines[i]))
  }

  /** The delete write to the delete characteristic. */
  function DeleteWrite(peripheral: string, ch: Characteristic): Event {
    Write(peripheral, ch.service, ch.characteristic, DeletePayload())
  }

  /** The events of the first `count` iterations of the write loop: a write, then 500 ms. */
  function CreateSteps(lines: seq<string>, count: nat, peripheral: string, ch: Characteristic): seq<Event>
    requires count <= |lines|
    decreases count
  {
    if count == 0 then []
    else CreateSteps(lines, count - 1, peripheral, ch) + [CreateWrite(lines, count - 1, peripheral, ch), Sleep(500)]
  }

  /** One create/update write per line of the first `count`, in list order. */
  function ExpectedCreates(lines: seq<string>, count: nat, peripheral: string, ch: Characteristic): (r: seq<Event>)
    requires count <= |lines|
    ensures |r| == count
    ensures forall i :: 0 <= i < count ==> r[i] == CreateWrite(lines, i, peripheral, ch)
    decreases count
  {
    if count == 0 then [] else ExpectedCreates(lines, count - 1, peripheral, ch) + [CreateWrite(lines, count - 1, peripheral, ch)]
  }

  /** The write loop and the delete write that follows it. */
  function SendTestLines(lines: seq<string>, failure: Option<AlarmSync.WriteFailure>, peripheral: string,
                         create: Characteristic, delete: Characteristic, trace: seq<Event>, connected: Option<string>): TestResult
  {
    var n := |lines|;
    if failure.Some? && failure.value.index < n then
      var k := failure.value.index;
      TestResult(trace + CreateSteps(lines, k, peripheral, create) + [CreateWrite(lines, k, peripheral, create)],
                 Unhandled(failure.value.message), connected)
    else
      var written := trace + CreateSteps(lines, n, peripheral, create) + [DeleteWrite(peripheral, delete)];
      if failure.Some? && failure.value.index == n then
        TestResult(written, Unhandled(failure.value.message), connected)
      else
        TestResult(written + [Alert(TestSentNotice)], Done, connected)
  }

  /** From the services lookup on. */
  function AfterTestConnect(lines: seq<string>, ble: TestReplies, peripheral: string, trace: seq<Event>,
                            connected: Option<string>): TestResult
  {
    match ble.services
    case Throws(m) => TestResult(trace, Unhandled(m), connected)
    case Resolves(characteristics) =>
      var create := FindExact(characteristics, CREATE_UPDATE_CHAR_UUID);
      var delete := FindExact(characteristics, DELETE_CHAR_UUID);
      if create.None? || delete.None? then
        TestResult(trace + [Alert(CharacteristicsMissingNotice)], CharacteristicsMissing, connected)
      else
        SendTestLines(lines, ble.failedWrite, peripheral, create.value, delete.value, trace + [Sleep(500)], connected)
  }

  /** One press of the button, sending `lines`, with the connected device as it was before. */
  function TestRun(lines: seq<string>, ble: TestReplies, connected: Option<string>): TestResult {
    var scanning := [StartScan(AlarmSync.SCAN_SECONDS)];
    match ble.scan
    case Throws(m) => TestResult(scanning + [Alert(ErrorNotice(m))], ScanFailed(m), connected)
    case Resolves(_) =>
      var listed := scanning + [ScanTimer(SCAN_WAIT_MS), GetDiscovered];
      match ble.discovered
      case Throws(m) => TestResult(listed, Unhandled(m), connected)
      case Resolves(peripherals) =>
        match FindGentlyDevice(peripherals)
        case None => TestResult(listed + [Alert(DeviceNotFoundNotice)], DeviceMissing, connected)
        case Some(device) =>
          var connecting := listed + [Connect(device.id)];
          match ble.connect
          case Throws(m) => TestResult(connecting, Unhandled(m), connected)
          case Resolves(_) =>
            AfterTestConnect(lines, ble, device.id, connecting + [Sleep(1000), RetrieveServices(device.id)], Some(device.id))
  }

  // ---------------------------------------------------------------------------
  // Properties of the test run

  /** The replies take the run as far as the write loop. */
  predicate ReachesTestWrites(ble: TestReplies) {
    && ble.scan.Resolves?
    && ble.discovered.Resolves? && FindGentlyDevice(ble.discovered.value).Some?
    && ble.connect.Resolves?
    && ble.services.Resolves?
    && FindExact(ble.services.value, CREATE_UPDATE_CHAR_UUID).Some?
    && FindExact(ble.services.value, DELETE_CHAR_UUID).Some?
  }

  /** The events before the write loop, for a run that reaches it. */
  function TestPrefix(device: Peripheral): seq<Event> {
    [StartScan(AlarmSync.SCAN_SECONDS), ScanTimer(SCAN_WAIT_MS), GetDiscovered, Connect(device.id),
     Sleep(1000), RetrieveServices(device.id), Sleep(500)]
  }

  lemma TestPrefixHasNoWrites(device: Peripheral)
    ensures Writes(TestPrefix(device)) == []
  {
    SelectNone(TestPrefix(device), WriteKind);
  }

  /** The first `count` iterations write lines 0 .. count-1 in order. */
  lemma {:induction false} CreateStepsWrites(lines: seq<string>, count: nat, peripheral: string, ch: Characteristic)
    requires count <= |lines|
    ensures Writes(CreateSteps(lines, count, peripheral, ch)) == ExpectedCreates(lines, count, peripheral, ch)
    decreases count
  {
    if count > 0 {
      var before := CreateSteps(lines, count - 1, peripheral, ch);
      var w := CreateWrite(lines, count - 1, peripheral, ch);
      CreateStepsWrites(lines, count - 1, peripheral, ch);
      SelectAppend(before, [w, Sleep(500)], WriteKind);
      assert [w, Sleep(500)] == [w] + [Sleep(500)];
      SelectAppend([w], [Sleep(500)], WriteKind);
      SelectOne(w, WriteKind);
      SelectOne(Sleep(500), WriteKind);
    }
  }

  /** A run that reaches the write loop is the loop after the fixed prefix, connected to the first `GentlyDevice`. */
  lemma TestRunEntersLoop(lines: seq<string>, ble: TestReplies, connected: Option<string>)
    requires ReachesTestWrites(ble)
    ensures var device := FindGentlyDevice(ble.discovered.value).value;
      TestRun(lines, ble, connected)
        == SendTestLines(lines, ble.failedWrite, device.id,
                         FindExact(ble.services.value, CREATE_UPDATE_CHAR_UUID).value,
                         FindExact(ble.services.value, DELETE_CHAR_UUID).value,
                         TestPrefix(device), Some(device.id))
  {
    var device := FindGentlyDevice(ble.discovered.value).value;
    assert [StartScan(AlarmSync.SCAN_SECONDS)] + [ScanTimer(SCAN_WAIT_MS), GetDiscovered] + [Connect(device.id)]
           + [Sleep(1000), RetrieveServices(device.id)] + [Sleep(500)] == TestPrefix(device);
  }

  /** A create/update write that throws ends the run: the writes stop at that line. */
  lemma ThrowingCreateWrites(lines: seq<string>, failure: AlarmSync.WriteFailure, peripheral: string,
                             create: Characteristic, delete: Characteristic, trace: seq<Event>, connected: Option<string>)
    requires failure.index < |lines| && Writes(trace) == []
    ensures Writes(SendTestLines(lines, Some(failure), peripheral, create, delete, trace, connected).trace)
         == ExpectedCreates(lines, failure.index + 1, peripheral, create)
  {
    var k := failure.index;
    var steps := CreateSteps(lines, k, peripheral, create);
    var w := CreateWrite(lines, k, peripheral, create);
    assert SendTestLines(lines, Some(failure), peripheral, create, delete, trace, connected).trace == trace + (steps + [w]);
    SelectAppend(trace, steps + [w], WriteKind);
    SelectAppend(steps, [w], WriteKind);
    CreateStepsWrites(lines, k, peripheral, create);
    SelectOne(w, WriteKind);
  }

  /** Without a throwing create/update write every line is written, then the delete request. */
  lemma AllCreateWrites(lines: seq<string>, failure: Option<AlarmSync.WriteFailure>, peripheral: string,
                        create: Characteristic, delete: Characteristic, trace: seq<Event>, connected: Option<string>)
    requires !(failure.Some? && failure.value.index < |lines|) && Writes(trace) == []
    ensures Writes(SendTestLines(lines, failure, peripheral, create, delete, trace, connected).trace)
         == ExpectedCreates(lines, |lines|, peripheral, create) + [DeleteWrite(peripheral, delete)]
  {
    var steps := CreateSteps(lines, |lines|, peripheral, create);
    var d := DeleteWrite(peripheral, delete);
    var tail := if failure.Some? && failure.value.index == |lines| then [] else [Alert(TestSentNotice)];
    assert SendTestLines(lines, failure, peripheral, create, delete, trace, connected).trace == trace + (steps + ([d] + tail));
    SelectAppend(trace, steps + ([d] + tail), WriteKind);
    SelectAppend(steps, [d] + tail, WriteKind);
    SelectAppend([d], tail, WriteKind);
    SelectNone(tail, WriteKind);
    CreateStepsWrites(lines, |lines|, peripheral, create);
    SelectOne(d, WriteKind);
  }

  /**
   * Once both characteristics are found, the run writes each line in order as
   * raw UTF-8 to the create/update characteristic and then the delete request
   * to the delete characteristic; a write that throws stops every later one.
   */
  lemma TestRunWrites(lines: seq<string>, ble: TestReplies, connected: Option<string>)
    requires ReachesTestWrites(ble)
    ensures var r := TestRun(lines, ble, connected);
      var device := FindGentlyDevice(ble.discovered.value).value;
      var create := FindExact(ble.services.value, CREATE_UPDATE_CHAR_UUID).value;
      var delete := FindExact(ble.services.value, DELETE_CHAR_UUID).value;
      var f := ble.failedWrite;
      Writes(r.trace) ==
        if f.Some? && f.value.index < |lines| then ExpectedCreates(lines, f.value.index + 1, device.id, create)
        else ExpectedCreates(lines, |lines|, device.id, create) + [DeleteWrite(device.id, delete)]
  {
    var device := FindGentlyDevice(ble.discovered.value).value;
    var create := FindExact(ble.services.value, CREATE_UPDATE_CHAR_UUID).value;
    var delete := FindExact(ble.services.value, DELETE_CHAR_UUID).value;
    var f := ble.failedWrite;
    var pre := TestPrefix(device);
    TestRunEntersLoop(lines, ble, connected);
    TestPrefixHasNoWrites(device);
    if f.Some? && f.value.index < |lines| {
      ThrowingCreateWrites(lines, f.value, device.id, create, delete, pre, Some(device.id));
    } else {
      AllCreateWrites(lines, f, device.id, create, delete, pre, Some(device.id));
    }
  }

  /** Each create/update write the run issues carries its line's bytes, readable as the line with no Base64 step. */
  lemma TestWritesCarryLines(lines: seq<string>, ble: TestReplies, connected: Option<string>)
    requires ReachesTestWrites(ble)
    ensures var w := Writes(TestRun(lines, ble, connected).trace);
      forall i :: 0 <= i < |w| && i < |lines| ==> w[i].Write? && Utf8.Decode(w[i].data) == Some(lines[i])
  {
    var device := FindGentlyDevice(ble.discovered.value).value;
    var create := FindExact(ble.services.value, CREATE_UPDATE_CHAR_UUID).value;
    var delete := FindExact(ble.services.value, DELETE_CHAR_UUID).value;
    var f := ble.failedWrite;
    var count := if f.Some? && f.value.index < |lines| then f.value.index + 1 else |lines|;
    var creates := ExpectedCreates(lines, count, device.id, create);
    var w := Writes(TestRun(lines, ble, connected).trace);
    TestRunWrites(lines, ble, connected);
    assert w[..count] == creates;
    forall i | 0 <= i < |w| && i < |lines| ensures w[i].Write? && Utf8.Decode(w[i].data) == Some(lines[i]) {
      assert i < count;
      assert w[i] == creates[i] == CreateWrite(lines, i, device.id, create);
    }
  }

  /** A run ends `Done` exactly when the replies reach the writes and every write succeeds; only then is success alerted. */
  lemma TestRunOutcome(lines: seq<string>, ble: TestReplies, connected: Option<string>)
    ensures var r := TestRun(lines, ble, connected);
      && (r.outcome == Done <==> ReachesTestWrites(ble) && !(ble.failedWrite.Some? && ble.failedWrite.value.index <= |lines|))
      && (r.outcome == Done ==> r.trace[|r.trace| - 1] == Alert(TestSentNotice))
      && (ble.scan.Throws? ==> r.outcome == ScanFailed(ble.scan.message) && r.trace[|r.trace| - 1] == Alert(ErrorNotice(ble.scan.message)))
  {
  }

  /** Without a peripheral named `GentlyDevice` the run alerts and stops before connecting. */
  lemma TestRunWithoutDevice(lines: seq<string>, ble: TestReplies, connected: Option<string>)
    requires ble.scan.Resolves? && ble.discovered.Resolves? && FindGentlyDevice(ble.discovered.value).None?
    ensures var r := TestRun(lines, ble, connected);
      && r.outcome == DeviceMissing && r.connectedDevice == connected
      && Select(r.trace, ConnectKind) == [] && Writes(r.trace) == []
      && r.trace[|r.trace| - 1] == Alert(DeviceNotFoundNotice)
  {
    var r := TestRun(lines, ble, connected);
    SelectNone(r.trace, ConnectKind);
    SelectNone(r.trace, WriteKind);
  }

  /** With either characteristic missing the run alerts and writes nothing. */
  lemma TestRunWithoutCharacteristics(lines: seq<string>, ble: TestReplies, connected: Option<string>)
    requires ble.scan.Resolves? && ble.discovered.Resolves? && FindGentlyDevice(ble.discovered.value).Some?
    requires ble.connect.Resolves? && ble.services.Resolves?
    requires Characteristic(ALARM_SERVICE_UUID, CREATE_UPDATE_CHAR_UUID) !in ble.services.value
          || Characteristic(ALARM_SERVICE_UUID, DELETE_CHAR_UUID) !in ble.services.value
    ensures var r := TestRun(lines, ble, connected);
      && r.outcome == CharacteristicsMissing && Writes(r.trace) == []
      && r.trace[|r.trace| - 1] == Alert(CharacteristicsMissingNotice)
  {
    FindExactIsFirstMatch(ble.services.value, CREATE_UPDATE_CHAR_UUID);
    FindExactIsFirstMatch(ble.services.value, DELETE_CHAR_UUID);
    var r := TestRun(lines, ble, connected);
    SelectNone(r.trace, WriteKind);
  }

  class SendAlarmTest {
    var connectedDevice: Option<string>

    constructor()
      ensures connectedDevice == None
    {
      connectedDevice := None;
    }

    /** `connectAndSendData`: the events, the outcome and the connected device are those of `TestRun` on the fixed lines. */
    method ConnectAndSendData(ble: TestReplies) returns (trace: seq<Event>, outcome: TestOutcome)
      modifies this
      ensures TestResult(trace, outcome, connectedDevice) == TestRun(TEST_ALARMS, ble, old(connectedDevice))
    {
      trace := [StartScan(AlarmSync.SCAN_SECONDS)];
      if ble.scan.Throws? {
        return trace + [Alert(ErrorNotice(ble.scan.message))], ScanFailed(ble.scan.message);
      }
      trace := trace + [ScanTimer(SCAN_WAIT_MS), GetDiscovered];
      if ble.discovered.Throws? {
        return trace, Unhandled(ble.discovered.message);
      }
      var found := FindGentlyDevice(ble.discovered.value);
      if found.None? {
        return trace + [Alert(DeviceNotFoundNotice)], DeviceMissing;
      }
      var device := found.value;
      trace := trace + [Connect(device.id)];
      if ble.connect.Throws? {
        return trace, Unhandled(ble.connect.message);
      }
      connectedDevice := Some(device.id);
      trace := trace + [Sleep(1000), RetrieveServices(device.id)];
      if ble.services.Throws? {
        return trace, Unhandled(ble.services.message);
      }
      var create := FindExact(ble.services.value, CREATE_UPDATE_CHAR_UUID);
      var delete := FindExact(ble.services.value, DELETE_CHAR_UUID);
      if create.None? || delete.None? {
        return trace + [Alert(CharacteristicsMissingNotice)], CharacteristicsMissing;
      }
      trace := trace + [Sleep(500)];
      trace, outcome := WriteTestAlarms(TEST_ALARMS, ble.failedWrite, device.id, create.value, delete.value, trace);
    }

    /** The loop over the lines and the delete write: `SendTestLines`. */
    method WriteTestAlarms(alarms: seq<string>, failure: Option<AlarmSync.WriteFailure>, peripheral: string,
                           create: Characteristic, delete: Characteristic, before: seq<Event>)
      returns (trace: seq<Event>, outcome: TestOutcome)
      ensures TestResult(trace, outcome, connectedDevice)
           == SendTestLines(alarms, failure, peripheral, create, delete, before, connectedDevice)
    {
      trace := before;
      var i := 0;
      while i < |alarms|
        invariant 0 <= i <= |alarms|
        invariant trace == before + CreateSteps(alarms, i, peripheral, create)
        invariant !(failure.Some? && failure.value.index < i)
      {
        var w := Write(peripheral, create.service, create.characteristic, AlarmRecord.RawPayload(alarms[i]));
        assert w == CreateWrite(alarms, i, peripheral, create);
        if failure.Some? && failure.value.index == i {
          return trace + [w], Unhandled(failure.value.message);
        }
        assert CreateSteps(alarms, i + 1, peripheral, create) == CreateSteps(alarms, i, peripheral, create) + [w, Sleep(500)];
        trace := trace + [w, Sleep(500)];
        i := i + 1;
      }
      trace := trace + [Write(peripheral, delete.service, delete.characteristic, DeletePayload())];
      if failure.Some? && failure.value.index == |alarms| {
        return trace, Unhandled(failure.value.message);
      }
      trace := trace + [Alert(TestSentNotice)];
      outcome := Done;
    }
  }
}
