/**
 * What the alarm screens see of `react-native-ble-manager`: the replies of its
 * calls, taken as inputs, and the calls and alerts the screens issue, recorded
 * as a trace of events.
 */
module Ble {
  import opened Wrappers
  import opened Bytes
  import Text
  import Decimal

  /** A peripheral as `getDiscoveredPeripherals` lists it; `name` is absent when it advertises none. */
  datatype Peripheral = Peripheral(id: string, name: Option<string>)

  /** One entry of `retrieveServices(id).characteristics`. */
  datatype Characteristic = Characteristic(service: string, characteristic: string)

  const DEVICE_NAME := "GentlyDevice"
  const ALARM_SERVICE_UUID := "12345678-1234-5678-1234-56789abcdef0"
  const CREATE_UPDATE_CHAR_UUID := "12345678-1234-5678-1234-56789abcdef1"
  const DELETE_CHAR_UUID := "12345678-1234-5678-1234-56789abcdef2"

  /** How a library call settles: it resolves with a value, or throws an error with a message ("" when it has none). */
  datatype Reply<+T> = Resolves(value: T) | Throws(message: string)

  /** The alert text for a caught error: `error.message || 'An unknown error occurred'`. */
  function ErrorText(message: string): (text: string)
    ensures text != ""
    ensures message != "" ==> text == message
    ensures message == "" ==> text == "An unknown error occurred"
  {
    if message == "" then "An unknown error occurred" else message
  }

  /**
   * The alerts the screens raise, by kind; `AlertTitle` and `AlertText`
   * give the exact wording. Those carrying a message show the error's
   * message, or the fallback when it has none.
   */
  datatype Notice =
    | NoAlarmsNotice
    | DeviceNotFoundNotice
    | ConnectionErrorNotice(message: string)
    | CharacteristicMissingNotice
    | CharacteristicsMissingNotice
    | SentNotice
    | TestSentNotice
    | ErrorNotice(message: string)

  function AlertTitle(n: Notice): string {
    match n
    case NoAlarmsNotice => "No Alarms"
    case DeviceNotFoundNotice => "Device not found"
    case ConnectionErrorNotice(_) => "Connection Error"
    case SentNotice => "Success"
    case TestSentNotice => "Success"
    case _ => "Error"
  }

  function AlertText(n: Notice): string {
    match n
    case NoAlarmsNotice => "Please add alarms before sending."
    case DeviceNotFoundNotice => "GentlyDevice was not found nearby."
    case ConnectionErrorNotice(m) => ErrorText(m)
    case CharacteristicMissingNotice => "Required characteristic not found."
    case CharacteristicsMissingNotice => "Required characteristics not found."
    case SentNotice => "Alarms sent to the device!"
    case TestSentNotice => "Alarms created/updated and deleted!"
    case ErrorNotice(m) => ErrorText(m)
  }

  /** The loading message of the alarms screens, by stage; `StageText` gives its wording. */
  datatype Stage =
    | NoStage
    | StartingScan
    | Scanning
    | Connecting
    | RetrievingServices
    | SendingAlarm(number: nat, total: nat)

  function StageText(stage: Stage): string {
    match stage
    case NoStage => ""
    case StartingScan => "Starting scan..."
    case Scanning => "Scanning for devices..."
    case Connecting => "Connecting to device..."
    case RetrievingServices => "Retrieving services..."
    case SendingAlarm(i, n) => "Sending alarm " + Decimal.NatToString(i) + " of " + Decimal.NatToString(n) + "..."
  }

  /** What the screens do, in order: alerts, loading-message updates, progress, library calls and waits. */
  datatype Event =
    | Alert(notice: Notice)
    | Status(stage: Stage)
    | Progress(done: nat, total: nat)
    | StartScan(seconds: nat)
    | AwaitScanStop
    | ScanTimer(ms: nat)
    | GetDiscovered
    | Connect(peripheral: string)
    | Sleep(ms: nat)
    | RetrieveServices(peripheral: string)
    | Write(peripheral: string, service: string, characteristic: string, data: seq<byte>)

  /** The events that call into the BLE library. */
  predicate IsBleCall(e: Event) {
    e.StartScan? || e.GetDiscovered? || e.Connect? || e.RetrieveServices? || e.Write?
  }

  /** The kinds of event the properties below pick out of a trace. */
  datatype Kind = WriteKind | ProgressKind | ConnectKind | AlertKind

  predicate OfKind(e: Event, k: Kind) {
    match k
    case WriteKind => e.Write?
    case ProgressKind => e.Progress?
    case ConnectKind => e.Connect?
    case AlertKind => e.Alert?
  }

  /** The events of `trace` of kind `k`, in order. */
  function Select(trace: seq<Event>, k: Kind): (r: seq<Event>)
    ensures |r| <= |trace|
    decreases |trace|
  {
    if |trace| == 0 then []
    else (if OfKind(trace[0], k) then [trace[0]] else []) + Select(trace[1..], k)
  }

  lemma {:induction false} SelectAppend(a: seq<Event>, b: seq<Event>, k: Kind)
    ensures Select(a + b, k) == Select(a, k) + Select(b, k)
    decreases |a|
  {
    if |a| == 0 {
      assert a + b == b;
    } else {
      assert (a + b)[0] == a[0] && (a + b)[1..] == a[1..] + b;
      SelectAppend(a[1..], b, k);
    }
  }

  /** Selecting from a single event keeps it exactly when it has the kind. */
  lemma SelectOne(e: Event, k: Kind)
    ensures Select([e], k) == if OfKind(e, k) then [e] else []
  {
    assert [e][1..] == [];
  }

  /** A trace with no event of kind `k` selects nothing. */
  lemma {:induction false} SelectNone(trace: seq<Event>, k: Kind)
    requires forall i :: 0 <= i < |trace| ==> !OfKind(trace[i], k)
    ensures Select(trace, k) == []
    decreases |trace|
  {
    if |trace| > 0 {
      SelectNone(trace[1..], k);
    }
  }

  /** Every selected event occurs in the trace and has kind `k`. */
  lemma {:induction false} SelectMembers(trace: seq<Event>, k: Kind)
    ensures forall e :: e in Select(trace, k) ==> e in trace && OfKind(e, k)
    decreases |trace|
  {
    if |trace| > 0 {
      SelectMembers(trace[1..], k);
    }
  }

  /** The writes issued in `trace`, in order. */
  function Writes(trace: seq<Event>): seq<Event> {
    Select(trace, WriteKind)
  }

  /** The progress reports of `trace`, in order. */
  function ProgressReports(trace: seq<Event>): seq<Event> {
    Select(trace, ProgressKind)
  }

  /** `array.find(p)` as an index: the first position whose element satisfies `p`. */
  function FindIndex<T>(s: seq<T>, p: T -> bool): (r: Option<nat>)
    ensures r.Some? ==> r.value < |s| && p(s[r.value]) && forall j :: 0 <= j < r.value ==> !p(s[j])
    ensures r.None? ==> forall j :: 0 <= j < |s| ==> !p(s[j])
    decreases |s|
  {
    if |s| == 0 then None
    else if p(s[0]) then Some(0)
    else match FindIndex(s[1..], p)
      case None => None
      case Some(k) => Some(k + 1)
  }

  /** `array.find(p)`. */
  function Find<T>(s: seq<T>, p: T -> bool): (r: Option<T>)
    ensures r.Some? <==> exists i :: 0 <= i < |s| && p(s[i])
    ensures r.Some? ==> exists i :: 0 <= i < |s| && s[i] == r.value && p(s[i]) && forall j :: 0 <= j < i ==> !p(s[j])
  {
    match FindIndex(s, p)
    case None => None
    case Some(i) => Some(s[i])
  }

  predicate IsGentlyDevice(p: Peripheral) {
    p.name == Some(DEVICE_NAME)
  }

  /** `peripherals.find(device => device.name === 'GentlyDevice')`. */
  function FindGentlyDevice(peripherals: seq<Peripheral>): Option<Peripheral> {
    Find(peripherals, IsGentlyDevice)
  }

  /**
   * Both UUIDs equal the alarm service and create/update characteristic after
   * lower-casing. The constants are lower-case already, so lower-casing them
   * is left out here; `MatchIgnoresCase` shows nothing is lost.
   */
  predicate IsCreateUpdateCharIgnoringCase(c: Characteristic) {
    Text.ToLower(c.service) == ALARM_SERVICE_UUID && Text.ToLower(c.characteristic) == CREATE_UPDATE_CHAR_UUID
  }

  /** The alarm UUID constants are written in lower case. */
  lemma ServiceUuidIsLowerCase()
    ensures Text.ToLower(ALARM_SERVICE_UUID) == ALARM_SERVICE_UUID
  {
    forall i | 0 <= i < 9 ensures Text.LowerChar(ALARM_SERVICE_UUID[i]) == ALARM_SERVICE_UUID[i] { }
    forall i | 9 <= i < 18 ensures Text.LowerChar(ALARM_SERVICE_UUID[i]) == ALARM_SERVICE_UUID[i] { }
    forall i | 18 <= i < 27 ensures Text.LowerChar(ALARM_SERVICE_UUID[i]) == ALARM_SERVICE_UUID[i] { }
    forall i | 27 <= i < 36 ensures Text.LowerChar(ALARM_SERVICE_UUID[i]) == ALARM_SERVICE_UUID[i] { }
    Text.ToLowerOfLowerCase(ALARM_SERVICE_UUID);
  }

  lemma CreateUpdateUuidIsLowerCase()
    ensures Text.ToLower(CREATE_UPDATE_CHAR_UUID) == CREATE_UPDATE_CHAR_UUID
  {
    forall i | 0 <= i < 9 ensures Text.LowerChar(CREATE_UPDATE_CHAR_UUID[i]) == CREATE_UPDATE_CHAR_UUID[i] { }
    forall i | 9 <= i < 18 ensures Text.LowerChar(CREATE_UPDATE_CHAR_UUID[i]) == CREATE_UPDATE_CHAR_UUID[i] { }
    forall i | 18 <= i < 27 ensures Text.LowerChar(CREATE_UPDATE_CHAR_UUID[i]) == CREATE_UPDATE_CHAR_UUID[i] { }
    forall i | 27 <= i < 36 ensures Text.LowerChar(CREATE_UPDATE_CHAR_UUID[i]) == CREATE_UPDATE_CHAR_UUID[i] { }
    Text.ToLowerOfLowerCase(CREATE_UPDATE_CHAR_UUID);
  }

  lemma ServiceMatchIgnoresCase(service: string)
    ensures Text.ToLower(service) == ALARM_SERVICE_UUID <==> Text.EqualIgnoringCase(service, ALARM_SERVICE_UUID)
  {
    ServiceUuidIsLowerCase();
  }

  lemma CreateUpdateMatchIgnoresCase(characteristic: string)
    ensures Text.ToLower(characteristic) == CREATE_UPDATE_CHAR_UUID <==> Text.EqualIgnoringCase(characteristic, CREATE_UPDATE_CHAR_UUID)
  {
    CreateUpdateUuidIsLowerCase();
  }

  /** The match is `service.toLowerCase() === ALARM_SERVICE_UUID.toLowerCase()` and the same for the characteristic. */
  lemma MatchIgnoresCase(c: Characteristic)
    ensures IsCreateUpdateCharIgnoringCase(c)
        <==> Text.EqualIgnoringCase(c.service, ALARM_SERVICE_UUID) && Text.EqualIgnoringCase(c.characteristic, CREATE_UPDATE_CHAR_UUID)
  {
    ServiceMatchIgnoresCase(c.service);
    CreateUpdateMatchIgnoresCase(c.characteristic);
  }

  /** The characteristic the alarms screens write to. */
  function FindCreateUpdateChar(characteristics: seq<Characteristic>): Option<Characteristic> {
    Find(characteristics, IsCreateUpdateCharIgnoringCase)
  }
}
