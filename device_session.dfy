/**
 * The fields both alarms screens keep for the device: the loading overlay
 * (`isLoading`, `loadingMessage`, `progress`) and the connected peripheral
 * (`connectedDevice`, which `connectedDeviceRef` mirrors), with the routine
 * `sendAlarmsToDevice` and the disconnect listener that update them.
 */
module Session {
  import opened Wrappers
  import opened Bytes
  import opened Ble
  import opened AlarmSync

  class DeviceSession {
    var isLoading: bool
    var loadingMessage: Stage
    var progress: Option<Fraction>
    var connectedDevice: Option<string>

    function State(): SendState
      reads this
    {
      SendState(isLoading, loadingMessage, progress, connectedDevice)
    }

    /** The initial state: not loading, no message, no progress, not connected. */
    constructor()
      ensures State() == SendState(false, NoStage, None, None)
    {
      isLoading := false;
      loadingMessage := NoStage;
      progress := None;
      connectedDevice := None;
    }

    /** `handleDisconnect`: clears the connected device when it is the peripheral that disconnected. */
    method HandleDisconnect(peripheral: string)
      modifies this
      ensures State() == AfterDisconnect(old(State()), peripheral)
    {
      if connectedDevice == Some(peripheral) {
        connectedDevice := None;
      }
    }

    /**
     * `sendAlarmsToDevice` with one payload per alarm in list order: the events
     * it issues, how it ends and the fields it leaves are those of `Send`.
     */
    method SendAlarms(payloads: seq<seq<byte>>, ble: BleReplies) returns (trace: seq<Event>, outcome: Outcome)
      modifies this
      ensures SendResult(trace, outcome, State()) == Send(payloads, ble, old(State()))
    {
      if |payloads| == 0 {
        return [Alert(NoAlarmsNotice)], NoAlarms;
      }
      isLoading := true;
      loadingMessage := StartingScan;
      trace := [Status(StartingScan), StartScan(SCAN_SECONDS)];
      if ble.scan.Throws? {
        isLoading := false;
        progress := None;
        return trace + [Alert(ErrorNotice(ble.scan.message))], Failed(ble.scan.message);
      }
      loadingMessage := Scanning;
      trace := trace + [Status(Scanning), AwaitScanStop];
      if !ble.scanStopEvent {
        return trace, WaitingForScanStop;
      }
      trace := trace + [GetDiscovered];
      trace, outcome := ContinueAfterScan(payloads, ble, trace);
    }

    /** From the list of discovered peripherals on: `AfterScan`. */
    method ContinueAfterScan(payloads: seq<seq<byte>>, ble: BleReplies, before: seq<Event>) returns (trace: seq<Event>, outcome: Outcome)
      requires |payloads| > 0
      modifies this
      ensures SendResult(trace, outcome, State()) == AfterScan(payloads, ble, before, old(State()))
    {
      if ble.discovered.Throws? {
        isLoading := false;
        progress := None;
        return before + [Alert(ErrorNotice(ble.discovered.message))], Failed(ble.discovered.message);
      }
      var found := FindGentlyDevice(ble.discovered.value);
      if found.None? {
        isLoading := false;
        return before + [Alert(DeviceNotFoundNotice)], DeviceNotFound;
      }
      var device := found.value;
      loadingMessage := Connecting;
      trace := before + [Status(Connecting), Connect(device.id)];
      if ble.connect.Throws? {
        isLoading := false;
        return trace + [Alert(ConnectionErrorNotice(ble.connect.message))], ConnectionFailed(ble.connect.message);
      }
      connectedDevice := Some(device.id);
      trace := trace + [Sleep(1000)];
      loadingMessage := RetrievingServices;
      trace := trace + [Status(RetrievingServices), RetrieveServices(device.id)];
      assert trace == before + ConnectEvents(device);
      assert State() == ConnectedState(old(State()), device);
      AfterScanConnected(payloads, ble, before, old(State()));
      trace, outcome := ContinueAfterConnect(payloads, ble, device.id, trace);
    }

    /** From the services lookup on: `AfterConnect`. */
    method ContinueAfterConnect(payloads: seq<seq<byte>>, ble: BleReplies, peripheral: string, before: seq<Event>)
      returns (trace: seq<Event>, outcome: Outcome)
      requires |payloads| > 0
      modifies this
      ensures SendResult(trace, outcome, State()) == AfterConnect(payloads, ble, peripheral, before, old(State()))
    {
      if ble.services.Throws? {
        isLoading := false;
        progress := None;
        return before + [Alert(ErrorNotice(ble.services.message))], Failed(ble.services.message);
      }
      var found := FindCreateUpdateChar(ble.services.value);
      if found.None? {
        isLoading := false;
        return before + [Alert(CharacteristicMissingNotice)], CharacteristicNotFound;
      }
      trace, outcome := WriteAlarms(payloads, ble.failedWrite, peripheral, found.value, before + [Sleep(500)]);
    }

    /**
     * The write loop: per payload the status text, the progress, the write and a
     * 500 ms wait; the first write that throws ends it. The result is `Transmit`'s.
     */
    method WriteAlarms(payloads: seq<seq<byte>>, failure: Option<WriteFailure>, peripheral: string, ch: Characteristic,
                       before: seq<Event>) returns (trace: seq<Event>, outcome: Outcome)
      requires |payloads| > 0
      modifies this
      ensures SendResult(trace, outcome, State()) == Transmit(payloads, failure, peripheral, ch, before, old(State()))
    {
      var n := |payloads|;
      ghost var st0 := State();
      trace := before;
      var i := 0;
      while i < n
        invariant 0 <= i <= n
        invariant trace == before + SendSteps(payloads, i, peripheral, ch)
        invariant !(failure.Some? && failure.value.index < i)
        invariant i == 0 ==> State() == st0
        invariant i > 0 ==> State() == st0.(loadingMessage := SendingMessage(i - 1, n), progress := Some(Fraction(i, n)))
      {
        loadingMessage := SendingMessage(i, n);
        progress := Some(Fraction(i + 1, n));
        ghost var steps := trace;
        trace := trace + [Status(loadingMessage), Progress(i + 1, n)];
        trace := trace + [Write(peripheral, ch.service, ch.characteristic, payloads[i])];
        assert trace == steps + SendStep(payloads, i, peripheral, ch);
        if failure.Some? && failure.value.index == i {
          isLoading := false;
          progress := None;
          return trace + [Alert(ErrorNotice(failure.value.message))], Failed(failure.value.message);
        }
        trace := trace + [Sleep(500)];
        i := i + 1;
      }
      isLoading := false;
      progress := None;
      trace := trace + [Alert(SentNotice)];
      outcome := Sent;
    }
  }
}
