/**
 * `sendAlarmsToDevice`, shared by both alarms screens, as a function of the
 * payloads to write (one per alarm, in list order), the replies of the BLE library and the screen fields
 * before the call. It gives the events issued in order, how the call ended,
 * and the screen fields afterwards.
 *
 * The steps: refuse an empty list; scan for 5 seconds and wait for the
 * scan-stop event; take the first peripheral named `GentlyDevice`; connect;
 * wait 1 s; retrieve services and take the first characteristic whose service
 * and characteristic UUIDs match the alarm constants ignoring case; wait
 * 500 ms; then per alarm set the status and progress, write its payload and
 * wait 500 ms. Any error thrown outside the connect step ends the call with
 * loading cleared and progress reset.
 */
module AlarmSync {
  import opened Wrappers
  import opened Bytes
  import opened Ble

  /** `setProgress(done / total)`, kept as the two integers. */
  datatype Fraction = Fraction(done: nat, total: nat)

  /** The screen fields the routine sets. */
  datatype SendState = SendState(
    isLoading: bool,
    loadingMessage: Stage,
    progress: Option<Fraction>,
    connectedDevice: Option<string>)

  /** The write at `index` (0-based, in list order) throws with `message`. */
  datatype WriteFailure = WriteFailure(index: nat, message: string)

  /** How the library answers each call of one run. */
  datatype BleReplies = BleReplies(
    scan: Reply<()>,
    scanStopEvent: bool,
    discovered: Reply<seq<Peripheral>>,
    connect: Reply<()>,
    services: Reply<seq<Characteristic>>,
    failedWrite: Option<WriteFailure>)

  /** How a call of the routine ends. */
  datatype Outcome =
    | NoAlarms
    | WaitingForScanStop
    | DeviceNotFound
    | ConnectionFailed(message: string)
    | CharacteristicNotFound
    | Failed(message: string)
    | Sent

  datatype SendResult = SendResult(trace: seq<Event>, outcome: Outcome, state: SendState)

  const SCAN_SECONDS: nat := 5

  /** The loading message while alarm `i` of `n` is sent: `Sending alarm ${i + 1} of ${n}...`. */
  function SendingMessage(i: nat, n: nat): Stage {
    SendingAlarm(i + 1, n)
  }

  /** The outer `catch`: loading off, progress reset, the error alerted. */
  function Caught(trace: seq<Event>, message: string, st: SendState): SendResult {
    SendResult(trace + [Alert(ErrorNotice(message))], Failed(message), st.(isLoading := false, progress := None))
  }

  /** The events for alarm `i`: status text, progress `(i+1)/n`, then its write to the matched characteristic. */
  function SendStep(payloads: seq<seq<byte>>, i: nat, peripheral: string, ch: Characteristic): seq<Event>
    requires i < |payloads|
  {
    [ Status(SendingMessage(i, |payloads|)),
      Progress(i + 1, |payloads|),
      LineWrite(payloads, i, peripheral, ch) ]
  }

  /** The write of alarm `i`: its payload to the matched characteristic of `peripheral`. */
  function LineWrite(payloads: seq<seq<byte>>, i: nat, peripheral: string, ch: Characteristic): Event
    requires i < |payloads|
  {
    Write(peripheral, ch.service, ch.characteristic, payloads[i])
  }

  /** One full iteration of the write loop: alarm `i`'s events and then the 500 ms wait. */
  function Iteration(payloads: seq<seq<byte>>, i: nat, peripheral: string, ch: Characteristic): seq<Event>
    requires i < |payloads|
  {
    SendStep(payloads, i, peripheral, ch) + [Sleep(500)]
  }

  /** The events of the first `count` iterations of the write loop. */
  function SendSteps(payloads: seq<seq<byte>>, count: nat, peripheral: string, ch: Characteristic): seq<Event>
    requires count <= |payloads|
    decreases count
  {
    if count == 0 then []
    else SendSteps(payloads, count - 1, peripheral, ch) + Iteration(payloads, count - 1, peripheral, ch)
  }

  /** The write loop and what follows it. */
  function Transmit(payloads: seq<seq<byte>>, failure: Option<WriteFailure>, peripheral: string, ch: Characteristic,
                    trace: seq<Event>, st: SendState): SendResult
    requires |payloads| > 0
  {
    var n := |payloads|;
    if failure.Some? && failure.value.index < n then
      var k := failure.value.index;
      var done := trace + SendSteps(payloads, k, peripheral, ch) + SendStep(payloads, k, peripheral, ch);
      Caught(done, failure.value.message, st.(loadingMessage := SendingMessage(k, n), progress := Some(Fraction(k + 1, n))))
    else
      var done := trace + SendSteps(payloads, n, peripheral, ch);
      SendResult(done + [Alert(SentNotice)], Sent,
                 st.(isLoading := false, loadingMessage := SendingMessage(n - 1, n), progress := None))
  }

  /** From the service lookup on. */
  function AfterConnect(payloads: seq<seq<byte>>, ble: BleReplies, peripheral: string, trace: seq<Event>, st: SendState): SendResult
    requires |payloads| > 0
  {
    match ble.services
    case Throws(m) => Caught(trace, m, st)
    case Resolves(characteristics) =>
      match FindCreateUpdateChar(characteristics)
      case None =>
        SendResult(trace + [Alert(CharacteristicMissingNotice)], CharacteristicNotFound, st.(isLoading := false))
      case Some(ch) => Transmit(payloads, ble.failedWrite, peripheral, ch, trace + [Sleep(500)], st)
  }

  /** From the list of discovered peripherals on. */
  function AfterScan(payloads: seq<seq<byte>>, ble: BleReplies, trace: seq<Event>, st: SendState): SendResult
    requires |payloads| > 0
  {
    match ble.discovered
    case Throws(m) => Caught(trace, m, st)
    case Resolves(peripherals) =>
      match FindGentlyDevice(peripherals)
      case None =>
        SendResult(trace + [Alert(DeviceNotFoundNotice)], DeviceNotFound, st.(isLoading := false))
      case Some(device) =>
        var connecting := trace + [Status(Connecting), Connect(device.id)];
        var st' := st.(loadingMessage := Connecting);
        match ble.connect
        case Throws(m) =>
          SendResult(connecting + [Alert(ConnectionErrorNotice(m))], ConnectionFailed(m), st'.(isLoading := false))
        case Resolves(_) =>
          AfterConnect(payloads, ble, device.id,
                       connecting + [Sleep(1000), Status(RetrievingServices), RetrieveServices(device.id)],
                       st'.(connectedDevice := Some(device.id), loadingMessage := RetrievingServices))
  }

  /** One call of `sendAlarmsToDevice` with the screen's payloads. */
  function Send(payloads: seq<seq<byte>>, ble: BleReplies, st: SendState): SendResult {
    if |payloads| == 0 then
      SendResult([Alert(NoAlarmsNotice)], NoAlarms, st)
    else
      var starting := [Status(StartingScan), StartScan(SCAN_SECONDS)];
      var st' := st.(isLoading := true, loadingMessage := StartingScan);
      match ble.scan
      case Throws(m) => Caught(starting, m, st')
      case Resolves(_) =>
        var waiting := starting + [Status(Scanning), AwaitScanStop];
        if !ble.scanStopEvent then
          SendResult(waiting, WaitingForScanStop, st'.(loadingMessage := Scanning))
        else
          AfterScan(payloads, ble, waiting + [GetDiscovered], st'.(loadingMessage := Scanning))
  }

  /**
   * The disconnect listener: the connected device is forgotten when the
   * disconnected peripheral is the one recorded, and nothing else changes.
   */
  function AfterDisconnect(st: SendState, peripheral: string): (r: SendState)
    ensures r.connectedDevice != Some(peripheral)
    ensures st.connectedDevice != Some(peripheral) ==> r == st
    ensures r == st.(connectedDevice := r.connectedDevice)
  {
    if st.connectedDevice == Some(peripheral) then st.(connectedDevice := None) else st
  }

  // ---------------------------------------------------------------------------
  // Properties of the routine

  /** The replies take the routine as far as the write loop. */
  predicate ReachesWriteLoop(payloads: seq<seq<byte>>, ble: BleReplies) {
    && |payloads| > 0
    && ble.scan.Resolves? && ble.scanStopEvent
    && ble.discovered.Resolves? && FindGentlyDevice(ble.discovered.value).Some?
    && ble.connect.Resolves?
    && ble.services.Resolves? && FindCreateUpdateChar(ble.services.value).Some?
  }

  /** Some write of the loop throws. */
  predicate WriteThrows(payloads: seq<seq<byte>>, ble: BleReplies) {
    ble.failedWrite.Some? && ble.failedWrite.value.index < |payloads|
  }

  /** How many writes the loop issues: every payload, or up to and including the one that throws. */
  function WritesIssued(payloads: seq<seq<byte>>, ble: BleReplies): nat {
    if WriteThrows(payloads, ble) then ble.failedWrite.value.index + 1 else |payloads|
  }

  /** One write per payload of the first `count`, in list order, to the matched characteristic. */
  function ExpectedWrites(payloads: seq<seq<byte>>, count: nat, peripheral: string, ch: Characteristic): (r: seq<Event>)
    requires count <= |payloads|
    ensures |r| == count
    ensures forall i :: 0 <= i < count ==> r[i] == LineWrite(payloads, i, peripheral, ch)
    decreases count
  {
    if count == 0 then [] else ExpectedWrites(payloads, count - 1, peripheral, ch) + [LineWrite(payloads, count - 1, peripheral, ch)]
  }

  /** Progress 1/n, 2/n, ..., count/n. */
  function ExpectedProgress(n: nat, count: nat): (r: seq<Event>)
    ensures |r| == count
    ensures forall i :: 0 <= i < count ==> r[i] == Progress(i + 1, n)
    decreases count
  {
    if count == 0 then [] else ExpectedProgress(n, count - 1) + [Progress(count, n)]
  }

  /** Selection from a status, a progress report, a write and events of neither kind. */
  lemma SelectIteration(status: Event, progress: Event, write: Event, tail: seq<Event>)
    requires status.Status? && progress.Progress? && write.Write?
    requires forall j :: 0 <= j < |tail| ==> !tail[j].Write? && !tail[j].Progress?
    ensures Writes([status] + ([progress] + ([write] + tail))) == [write]
    ensures ProgressReports([status] + ([progress] + ([write] + tail))) == [progress]
  {
    SelectNone(tail, WriteKind);
    SelectNone(tail, ProgressKind);
    SelectOne(status, WriteKind);
    SelectOne(progress, WriteKind);
    SelectOne(write, WriteKind);
    SelectOne(status, ProgressKind);
    SelectOne(progress, ProgressKind);
    SelectOne(write, ProgressKind);
    SelectAppend([status], [progress] + ([write] + tail), WriteKind);
    SelectAppend([progress], [write] + tail, WriteKind);
    SelectAppend([write], tail, WriteKind);
    SelectAppend([status], [progress] + ([write] + tail), ProgressKind);
    SelectAppend([progress], [write] + tail, ProgressKind);
    SelectAppend([write], tail, ProgressKind);
  }

  /** The events of one loop iteration: one progress report and one write, in that order. */
  lemma StepEffects(payloads: seq<seq<byte>>, i: nat, peripheral: string, ch: Characteristic, tail: seq<Event>)
    requires i < |payloads|
    requires forall j :: 0 <= j < |tail| ==> !tail[j].Write? && !tail[j].Progress?
    ensures Writes(SendStep(payloads, i, peripheral, ch) + tail) == [LineWrite(payloads, i, peripheral, ch)]
    ensures ProgressReports(SendStep(payloads, i, peripheral, ch) + tail) == [Progress(i + 1, |payloads|)]
  {
    var status, progress, write := Status(SendingMessage(i, |payloads|)), Progress(i + 1, |payloads|), LineWrite(payloads, i, peripheral, ch);
    assert SendStep(payloads, i, peripheral, ch) + tail == [status] + ([progress] + ([write] + tail));
    SelectIteration(status, progress, write, tail);
  }

  /** The first `count` iterations write payloads 0 .. count-1 in order and report progress 1/n .. count/n. */
  lemma {:induction false} SendStepsEffects(payloads: seq<seq<byte>>, count: nat, peripheral: string, ch: Characteristic)
    requires count <= |payloads|
    ensures Writes(SendSteps(payloads, count, peripheral, ch)) == ExpectedWrites(payloads, count, peripheral, ch)
    ensures ProgressReports(SendSteps(payloads, count, peripheral, ch)) == ExpectedProgress(|payloads|, count)
    decreases count
  {
    if count > 0 {
      var before := SendSteps(payloads, count - 1, peripheral, ch);
      var iteration := Iteration(payloads, count - 1, peripheral, ch);
      SendStepsEffects(payloads, count - 1, peripheral, ch);
      StepEffects(payloads, count - 1, peripheral, ch, [Sleep(500)]);
      SelectAppend(before, iteration, WriteKind);
      SelectAppend(before, iteration, ProgressKind);
    }
  }

  /** Selection from a prefix without writes or progress, the loop's events, and a closing part. */
  lemma SelectAround(pre: seq<Event>, loop: seq<Event>, post: seq<Event>, k: Kind)
    requires Select(pre, k) == []
    ensures Select(pre + loop + post, k) == Select(loop, k) + Select(post, k)
  {
    assert pre + loop + post == pre + (loop + post);
    SelectAppend(pre, loop + post, k);
    SelectAppend(loop, post, k);
  }

  /** A write that throws ends the loop after it: writes and progress stop at that payload. */
  lemma TransmitThrowingEffects(payloads: seq<seq<byte>>, failure: WriteFailure, peripheral: string, ch: Characteristic,
                                trace: seq<Event>, st: SendState)
    requires failure.index < |payloads|
    requires Writes(trace) == [] && ProgressReports(trace) == []
    ensures var r := Transmit(payloads, Some(failure), peripheral, ch, trace, st);
      && Writes(r.trace) == ExpectedWrites(payloads, failure.index + 1, peripheral, ch)
      && ProgressReports(r.trace) == ExpectedProgress(|payloads|, failure.index + 1)
  {
    var k := failure.index;
    var steps := SendSteps(payloads, k, peripheral, ch);
    var alert := Alert(ErrorNotice(failure.message));
    SendStepsEffects(payloads, k, peripheral, ch);
    StepEffects(payloads, k, peripheral, ch, [alert]);
    var last := SendStep(payloads, k, peripheral, ch) + [alert];
    assert Transmit(payloads, Some(failure), peripheral, ch, trace, st).trace == trace + steps + last;
    SelectAround(trace, steps, last, WriteKind);
    SelectAround(trace, steps, last, ProgressKind);
  }

  /** Without a throwing write the loop writes every payload and reports every step. */
  lemma TransmitAllEffects(payloads: seq<seq<byte>>, failure: Option<WriteFailure>, peripheral: string, ch: Characteristic,
                           trace: seq<Event>, st: SendState)
    requires |payloads| > 0 && !(failure.Some? && failure.value.index < |payloads|)
    requires Writes(trace) == [] && ProgressReports(trace) == []
    ensures var r := Transmit(payloads, failure, peripheral, ch, trace, st);
      && Writes(r.trace) == ExpectedWrites(payloads, |payloads|, peripheral, ch)
      && ProgressReports(r.trace) == ExpectedProgress(|payloads|, |payloads|)
  {
    var steps := SendSteps(payloads, |payloads|, peripheral, ch);
    var alert := Alert(SentNotice);
    SendStepsEffects(payloads, |payloads|, peripheral, ch);
    SelectOne(alert, WriteKind);
    SelectOne(alert, ProgressKind);
    assert Transmit(payloads, failure, peripheral, ch, trace, st).trace == trace + steps + [alert];
    SelectAround(trace, steps, [alert], WriteKind);
    SelectAround(trace, steps, [alert], ProgressKind);
  }

  /** The write loop ends with loading off and progress reset, failed at the first throwing write or sent. */
  lemma TransmitOutcome(payloads: seq<seq<byte>>, failure: Option<WriteFailure>, peripheral: string, ch: Characteristic,
                        trace: seq<Event>, st: SendState)
    requires |payloads| > 0
    ensures var r := Transmit(payloads, failure, peripheral, ch, trace, st);
      && r.outcome == (if failure.Some? && failure.value.index < |payloads| then Failed(failure.value.message) else Sent)
      && !r.state.isLoading && r.state.progress == None
      && r.state.connectedDevice == st.connectedDevice
  {
  }

  /**
   * The write loop, entered after events that hold no write and no progress:
   * it writes every payload in order, or up to and including the one that throws,
   * and reports progress after each.
   */
  lemma TransmitEffects(payloads: seq<seq<byte>>, failure: Option<WriteFailure>, peripheral: string, ch: Characteristic,
                        trace: seq<Event>, st: SendState)
    requires |payloads| > 0
    requires Writes(trace) == [] && ProgressReports(trace) == []
    ensures var r := Transmit(payloads, failure, peripheral, ch, trace, st);
      var throws := failure.Some? && failure.value.index < |payloads|;
      var count := if throws then failure.value.index + 1 else |payloads|;
      && Writes(r.trace) == ExpectedWrites(payloads, count, peripheral, ch)
      && ProgressReports(r.trace) == ExpectedProgress(|payloads|, count)
  {
    if failure.Some? && failure.value.index < |payloads| {
      TransmitThrowingEffects(payloads, failure.value, peripheral, ch, trace, st);
    } else {
      TransmitAllEffects(payloads, failure, peripheral, ch, trace, st);
    }
  }

  /** The write loop only appends to the events before it. */
  lemma TransmitPrefix(payloads: seq<seq<byte>>, failure: Option<WriteFailure>, peripheral: string, ch: Characteristic,
                       trace: seq<Event>, st: SendState)
    requires |payloads| > 0
    ensures var r := Transmit(payloads, failure, peripheral, ch, trace, st);
      |r.trace| >= |trace| && r.trace[..|trace|] == trace
  {
    var n := |payloads|;
    if failure.Some? && failure.value.index < n {
      var k := failure.value.index;
      var rest := SendSteps(payloads, k, peripheral, ch) + SendStep(payloads, k, peripheral, ch) + [Alert(ErrorNotice(failure.value.message))];
      assert Transmit(payloads, failure, peripheral, ch, trace, st).trace == trace + rest;
    } else {
      var rest := SendSteps(payloads, n, peripheral, ch) + [Alert(SentNotice)];
      assert Transmit(payloads, failure, peripheral, ch, trace, st).trace == trace + rest;
    }
  }

  /** No write and no progress report among the events of `trace`. */
  predicate Quiet(trace: seq<Event>) {
    forall j :: 0 <= j < |trace| ==> !trace[j].Write? && !trace[j].Progress?
  }

  lemma QuietSelectsNothing(trace: seq<Event>)
    requires Quiet(trace)
    ensures Writes(trace) == [] && ProgressReports(trace) == []
  {
    SelectNone(trace, WriteKind);
    SelectNone(trace, ProgressKind);
  }

  /**
   * How a call ends, read off the replies in the order the routine consults
   * them: the list, the scan, the scan-stop event, the discovered list, the
   * connect, the services, the writes.
   */
  function ExpectedOutcome(payloads: seq<seq<byte>>, ble: BleReplies): Outcome {
    if |payloads| == 0 then NoAlarms
    else if ble.scan.Throws? then Failed(ble.scan.message)
    else if !ble.scanStopEvent then WaitingForScanStop
    else if ble.discovered.Throws? then Failed(ble.discovered.message)
    else if FindGentlyDevice(ble.discovered.value).None? then DeviceNotFound
    else if ble.connect.Throws? then ConnectionFailed(ble.connect.message)
    else if ble.services.Throws? then Failed(ble.services.message)
    else if FindCreateUpdateChar(ble.services.value).None? then CharacteristicNotFound
    else if WriteThrows(payloads, ble) then Failed(ble.failedWrite.value.message)
    else Sent
  }

  /**
   * Every call ends as the replies dictate; loading stays on only while the
   * scan-stop event is awaited, is untouched for an empty list and is off in
   * every other case; a thrown error or success also resets the progress.
   */
  lemma SendOutcome(payloads: seq<seq<byte>>, ble: BleReplies, st: SendState)
    ensures var r := Send(payloads, ble, st);
      && r.outcome == ExpectedOutcome(payloads, ble)
      && (r.outcome == NoAlarms ==> r.state == st)
      && (r.outcome == WaitingForScanStop ==> r.state.isLoading)
      && (r.outcome != NoAlarms && r.outcome != WaitingForScanStop ==> !r.state.isLoading)
      && (r.outcome.Failed? || r.outcome == Sent ==> r.state.progress == None)
  {
    if ReachesWriteLoop(payloads, ble) {
      var device := FindGentlyDevice(ble.discovered.value).value;
      SendEntersLoop(payloads, ble, st);
      TransmitOutcome(payloads, ble.failedWrite, device.id, FindCreateUpdateChar(ble.services.value).value,
                      LoopPrefix(device), LoopState(st, device));
    }
  }

  /** With an empty list the call alerts and stops: no scan, connect or write, and the screen is untouched. */
  lemma SendWithoutAlarms(payloads: seq<seq<byte>>, ble: BleReplies, st: SendState)
    requires |payloads| == 0
    ensures var r := Send(payloads, ble, st);
      && r.trace == [Alert(NoAlarmsNotice)]
      && (forall e :: e in r.trace ==> !IsBleCall(e))
      && r.outcome == NoAlarms && r.state == st
  {
  }

  /** Without a peripheral named `GentlyDevice` the call stops before connecting, with loading off. */
  lemma SendWithoutDevice(payloads: seq<seq<byte>>, ble: BleReplies, st: SendState)
    requires |payloads| > 0 && ble.scan.Resolves? && ble.scanStopEvent && ble.discovered.Resolves?
    requires FindGentlyDevice(ble.discovered.value).None?
    ensures var r := Send(payloads, ble, st);
      && Select(r.trace, ConnectKind) == [] && Writes(r.trace) == []
      && r.outcome == DeviceNotFound && !r.state.isLoading
      && r.state.connectedDevice == st.connectedDevice
  {
    var r := Send(payloads, ble, st);
    assert forall j :: 0 <= j < |r.trace| ==> !r.trace[j].Connect? && !r.trace[j].Write?;
    SelectNone(r.trace, ConnectKind);
    SelectNone(r.trace, WriteKind);
  }

  lemma QuietConcat(a: seq<Event>, b: seq<Event>)
    requires Quiet(a) && Quiet(b)
    ensures Quiet(a + b)
  {
  }

  /** The events up to the discovered-peripherals call, and the screen fields then. */
  function Scanned(): seq<Event> {
    [Status(StartingScan), StartScan(SCAN_SECONDS), Status(Scanning), AwaitScanStop, GetDiscovered]
  }

  function ScannedState(st: SendState): SendState {
    st.(isLoading := true, loadingMessage := Scanning)
  }

  /** The events up to the discovered-peripherals call hold no write, progress report or connect. */
  lemma ScannedIsQuiet()
    ensures Quiet(Scanned())
    ensures forall j :: 0 <= j < |Scanned()| ==> !Scanned()[j].Connect?
  {
  }

  /** After a scan that resolves and stops, the call continues from the discovered list. */
  lemma SendAfterScan(payloads: seq<seq<byte>>, ble: BleReplies, st: SendState)
    requires |payloads| > 0 && ble.scan.Resolves? && ble.scanStopEvent
    ensures Send(payloads, ble, st) == AfterScan(payloads, ble, Scanned(), ScannedState(st))
  {
    assert [Status(StartingScan), StartScan(SCAN_SECONDS)] + [Status(Scanning), AwaitScanStop] + [GetDiscovered]
        == Scanned();
  }

  /** The events from the connect call to the services lookup. */
  function ConnectEvents(device: Peripheral): seq<Event> {
    [Status(Connecting), Connect(device.id), Sleep(1000), Status(RetrievingServices), RetrieveServices(device.id)]
  }

  function ConnectedState(st: SendState, device: Peripheral): SendState {
    st.(connectedDevice := Some(device.id), loadingMessage := RetrievingServices)
  }

  lemma ConnectEventsAreQuiet(device: Peripheral)
    ensures Quiet(ConnectEvents(device))
  {
  }

  /** With a device found and connected, the call continues from the services lookup. */
  lemma AfterScanConnected(payloads: seq<seq<byte>>, ble: BleReplies, trace: seq<Event>, st: SendState)
    requires |payloads| > 0 && ble.discovered.Resolves? && FindGentlyDevice(ble.discovered.value).Some?
    requires ble.connect.Resolves?
    ensures var device := FindGentlyDevice(ble.discovered.value).value;
      AfterScan(payloads, ble, trace, st) == AfterConnect(payloads, ble, device.id, trace + ConnectEvents(device), ConnectedState(st, device))
  {
    var device := FindGentlyDevice(ble.discovered.value).value;
    assert trace + [Status(Connecting), Connect(device.id)] + [Sleep(1000), Status(RetrievingServices), RetrieveServices(device.id)]
        == trace + ConnectEvents(device);
  }

  /** With the characteristic matched, the call enters the write loop after a 500 ms wait. */
  lemma AfterConnectMatched(payloads: seq<seq<byte>>, ble: BleReplies, peripheral: string, trace: seq<Event>, st: SendState)
    requires |payloads| > 0 && ble.services.Resolves? && FindCreateUpdateChar(ble.services.value).Some?
    ensures AfterConnect(payloads, ble, peripheral, trace, st)
         == Transmit(payloads, ble.failedWrite, peripheral, FindCreateUpdateChar(ble.services.value).value, trace + [Sleep(500)], st)
  {
  }

  /** The events up to and including the connect call to `device`. */
  function ConnectPrefix(device: Peripheral): seq<Event> {
    Scanned() + [Status(Connecting), Connect(device.id)]
  }

  /**
   * With a `GentlyDevice` discovered the call's first library call after the
   * discovered list is the connect to the first one (`Scanned` holds no connect).
   */
  lemma SendConnectsToFirstGentlyDevice(payloads: seq<seq<byte>>, ble: BleReplies, st: SendState)
    requires |payloads| > 0 && ble.scan.Resolves? && ble.scanStopEvent && ble.discovered.Resolves?
    requires FindGentlyDevice(ble.discovered.value).Some?
    ensures var r := Send(payloads, ble, st);
      var prefix := ConnectPrefix(FindGentlyDevice(ble.discovered.value).value);
      |r.trace| >= |prefix| && r.trace[..|prefix|] == prefix
  {
    var device := FindGentlyDevice(ble.discovered.value).value;
    SendAfterScan(payloads, ble, st);
    var r := Send(payloads, ble, st);
    var prefix := ConnectPrefix(device);
    if ble.connect.Throws? {
      assert r.trace == prefix + [Alert(ConnectionErrorNotice(ble.connect.message))];
    } else {
      AfterScanConnected(payloads, ble, Scanned(), ScannedState(st));
      var trace := Scanned() + ConnectEvents(device);
      var st' := ConnectedState(ScannedState(st), device);
      assert trace == prefix + [Sleep(1000), Status(RetrievingServices), RetrieveServices(device.id)];
      var r' := AfterConnect(payloads, ble, device.id, trace, st');
      assert r == r';
      AfterConnectPrefix(payloads, ble, device.id, trace, st');
    }
  }

  /** From the services lookup on, the call only appends to the events so far. */
  lemma AfterConnectPrefix(payloads: seq<seq<byte>>, ble: BleReplies, peripheral: string, trace: seq<Event>, st: SendState)
    requires |payloads| > 0
    ensures var r := AfterConnect(payloads, ble, peripheral, trace, st);
      |r.trace| >= |trace| && r.trace[..|trace|] == trace
  {
    if ble.services.Resolves? && FindCreateUpdateChar(ble.services.value).Some? {
      var ch := FindCreateUpdateChar(ble.services.value).value;
      AfterConnectMatched(payloads, ble, peripheral, trace, st);
      TransmitPrefix(payloads, ble.failedWrite, peripheral, ch, trace + [Sleep(500)], st);
    }
  }

  /** The screen's connected device changes only once the connect call resolves, and then to the first `GentlyDevice`. */
  lemma SendRecordsConnectedDevice(payloads: seq<seq<byte>>, ble: BleReplies, st: SendState)
    ensures var r := Send(payloads, ble, st);
      var connected := |payloads| > 0 && ble.scan.Resolves? && ble.scanStopEvent && ble.discovered.Resolves?
                       && FindGentlyDevice(ble.discovered.value).Some? && ble.connect.Resolves?;
      r.state.connectedDevice == if connected then Some(FindGentlyDevice(ble.discovered.value).value.id) else st.connectedDevice
  {
  }

  /** The replies let no write happen: the call issues none and reports no progress. */
  lemma SendWithoutWriteLoop(payloads: seq<seq<byte>>, ble: BleReplies, st: SendState)
    requires !ReachesWriteLoop(payloads, ble)
    ensures var r := Send(payloads, ble, st);
      && Writes(r.trace) == [] && ProgressReports(r.trace) == []
      && r.outcome != Sent
  {
    var r := Send(payloads, ble, st);
    if |payloads| == 0 || ble.scan.Throws? || !ble.scanStopEvent {
      assert Quiet(r.trace);
      QuietSelectsNothing(r.trace);
    } else {
      SendAfterScan(payloads, ble, st);
      if ble.discovered.Throws? || FindGentlyDevice(ble.discovered.value).None? || ble.connect.Throws? {
        assert Quiet(r.trace);
        QuietSelectsNothing(r.trace);
      } else {
        var device := FindGentlyDevice(ble.discovered.value).value;
        AfterScanConnected(payloads, ble, Scanned(), ScannedState(st));
        var trace := Scanned() + ConnectEvents(device);
        ScannedIsQuiet();
        ConnectEventsAreQuiet(device);
        QuietConcat(Scanned(), ConnectEvents(device));
        match ble.services
        case Throws(m) =>
          QuietConcat(trace, [Alert(ErrorNotice(m))]);
          QuietSelectsNothing(trace + [Alert(ErrorNotice(m))]);
        case Resolves(characteristics) =>
          QuietConcat(trace, [Alert(CharacteristicMissingNotice)]);
          QuietSelectsNothing(trace + [Alert(CharacteristicMissingNotice)]);
    }
  }
  }

  /**
   * Once connected with the characteristic matched, the call writes each payload
   * in list order to that characteristic of the first `GentlyDevice`, reporting
   * progress (i+1)/n after payload i; a write that throws stops all later writes.
   * (`SendOutcome` gives how the call ends and the fields it leaves.)
   */
  lemma SendReachingWriteLoop(payloads: seq<seq<byte>>, ble: BleReplies, st: SendState)
    requires ReachesWriteLoop(payloads, ble)
    ensures var r := Send(payloads, ble, st);
      var device := FindGentlyDevice(ble.discovered.value).value;
      var ch := FindCreateUpdateChar(ble.services.value).value;
      && Writes(r.trace) == ExpectedWrites(payloads, WritesIssued(payloads, ble), device.id, ch)
      && ProgressReports(r.trace) == ExpectedProgress(|payloads|, WritesIssued(payloads, ble))
  {
    var device := FindGentlyDevice(ble.discovered.value).value;
    var ch := FindCreateUpdateChar(ble.services.value).value;
    SendEntersLoop(payloads, ble, st);
    LoopPrefixIsQuiet(device);
    TransmitEffects(payloads, ble.failedWrite, device.id, ch, LoopPrefix(device), LoopState(st, device));
  }

  /** Once the routine reaches the write loop, write `i` carries payload `i`, for every write it issues. */
  lemma SendWritesPayloads(payloads: seq<seq<byte>>, ble: BleReplies, st: SendState)
    requires ReachesWriteLoop(payloads, ble)
    ensures var w := Writes(Send(payloads, ble, st).trace);
      && |w| == WritesIssued(payloads, ble) <= |payloads|
      && forall i :: 0 <= i < |w| ==> w[i].Write? && w[i].data == payloads[i]
  {
    SendReachingWriteLoop(payloads, ble, st);
  }

  /** The events before the write loop, and the screen fields then. */
  function LoopPrefix(device: Peripheral): seq<Event> {
    Scanned() + ConnectEvents(device) + [Sleep(500)]
  }

  function LoopState(st: SendState, device: Peripheral): SendState {
    ConnectedState(ScannedState(st), device)
  }

  lemma LoopPrefixIsQuiet(device: Peripheral)
    ensures Writes(LoopPrefix(device)) == [] && ProgressReports(LoopPrefix(device)) == []
  {
    ScannedIsQuiet();
    ConnectEventsAreQuiet(device);
    QuietConcat(Scanned(), ConnectEvents(device));
    QuietConcat(Scanned() + ConnectEvents(device), [Sleep(500)]);
    QuietSelectsNothing(LoopPrefix(device));
  }

  /** When the replies reach the write loop, the call is the loop after the fixed prefix of scan, connect and lookup. */
  lemma SendEntersLoop(payloads: seq<seq<byte>>, ble: BleReplies, st: SendState)
    requires ReachesWriteLoop(payloads, ble)
    ensures var device := FindGentlyDevice(ble.discovered.value).value;
      Send(payloads, ble, st)
        == Transmit(payloads, ble.failedWrite, device.id, FindCreateUpdateChar(ble.services.value).value,
                    LoopPrefix(device), LoopState(st, device))
  {
    var device := FindGentlyDevice(ble.discovered.value).value;
    SendAfterScan(payloads, ble, st);
    AfterScanConnected(payloads, ble, Scanned(), ScannedState(st));
    AfterConnectMatched(payloads, ble, device.id, Scanned() + ConnectEvents(device), LoopState(st, device));
  }
}
