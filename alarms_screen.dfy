/**
 * The typed alarms screen: the list of alarms, whether the create form is
 * shown, and the device session. It loads the list from storage on mount,
 * adds, deletes and toggles alarms, and sends them to the device as one
 * Base64 record line per alarm.
 */
module AlarmsScreenModel {
  import opened Wrappers
  import opened Bytes
  import opened AlarmRecord
  import opened AlarmIds
  import opened AlarmList
  import opened Ble
  import opened AlarmSync
  import opened Session

  /** What reading the stored list gives: nothing (or empty text), an error, a value that is not an array, or an array. */
  datatype StoredAlarms = Missing | Unreadable | NotAnArray | ArrayOf(alarms: seq<Alarm>)

  /** The saved form of a list: its JSON text reads back as that array. */
  function Saved(alarms: seq<Alarm>): StoredAlarms {
    ArrayOf(alarms)
  }

  /**
   * `loadAlarms`: a stored array replaces the list, an unreadable or malformed
   * value resets it to empty, and nothing stored leaves it as it was.
   */
  function LoadedAlarms(stored: StoredAlarms, current: seq<Alarm>): (r: seq<Alarm>)
    ensures stored.Missing? ==> r == current
    ensures stored.ArrayOf? ==> r == stored.alarms
    ensures stored.Unreadable? || stored.NotAnArray? ==> r == []
  {
    match stored
    case Missing => current
    case Unreadable => []
    case NotAnArray => []
    case ArrayOf(alarms) => alarms
  }

  /** Loading what was saved restores the saved list, whatever the list held before. */
  lemma LoadSavedAlarms(alarms: seq<Alarm>, current: seq<Alarm>)
    ensures LoadedAlarms(Saved(alarms), current) == alarms
  {
  }

  /** The payloads the screen writes: the Base64 record line of each alarm, in list order. */
  function AlarmPayloads(alarms: seq<Alarm>): (payloads: seq<seq<byte>>)
    ensures |payloads| == |alarms|
    ensures forall i :: 0 <= i < |alarms| ==> DecodeWirePayload(payloads[i]) == Some(RecordLine(alarms[i]))
  {
    WirePayloads(RecordLines(alarms))
  }

  /** Once the routine reaches the write loop, write `i` carries alarm `i`'s record line, for every write issued. */
  lemma SentAlarmsDecode(alarms: seq<Alarm>, ble: BleReplies, st: SendState)
    requires ReachesWriteLoop(AlarmPayloads(alarms), ble)
    ensures var w := Writes(Send(AlarmPayloads(alarms), ble, st).trace);
      && |w| == WritesIssued(AlarmPayloads(alarms), ble) <= |alarms|
      && forall i :: 0 <= i < |w| ==> w[i].Write? && DecodeWirePayload(w[i].data) == Some(RecordLine(alarms[i]))
  {
    SendWritesPayloads(AlarmPayloads(alarms), ble, st);
  }

  class AlarmsScreen {
    var alarms: seq<Alarm>
    var isModalVisible: bool
    const session: DeviceSession

    /** On mount: no alarms, the form hidden, nothing loading or connected. */
    constructor()
      ensures alarms == [] && !isModalVisible
      ensures fresh(session) && session.State() == SendState(false, NoStage, None, None)
    {
      alarms := [];
      isModalVisible := false;
      session := new DeviceSession();
    }

    /** `loadAlarms` with the outcome of reading storage. */
    method LoadAlarms(stored: StoredAlarms)
      modifies this
      ensures alarms == LoadedAlarms(stored, old(alarms)) && isModalVisible == old(isModalVisible)
    {
      match stored
      case Missing =>
      case Unreadable => alarms := [];
      case NotAnArray => alarms := [];
      case ArrayOf(parsed) => alarms := parsed;
    }

    method OpenModal()
      modifies this
      ensures isModalVisible && alarms == old(alarms)
    {
      isModalVisible := true;
    }

    method CloseModal()
      modifies this
      ensures !isModalVisible && alarms == old(alarms)
    {
      isModalVisible := false;
    }

    /** `addAlarm`: appends the alarm under the smallest free id and closes the form. */
    method AddAlarm(time: string, enabled: bool)
      modifies this
      ensures alarms == WithAlarmAdded(old(alarms), time, enabled) && !isModalVisible
    {
      var newId := GetNextAvailableId(alarms);
      alarms := alarms + [Alarm(newId, time, enabled)];
      CloseModal();
    }

    /** `deleteAlarmFromList`: drops every alarm with the id. */
    method DeleteAlarmFromList(id: int)
      modifies this
      ensures alarms == WithoutId(old(alarms), id) && isModalVisible == old(isModalVisible)
    {
      alarms := WithoutId(alarms, id);
    }

    /** `toggleAlarm`: sets `enabled` on every alarm with the id. */
    method ToggleAlarm(id: int, enabled: bool)
      modifies this
      ensures alarms == WithEnabled(old(alarms), id, enabled) && isModalVisible == old(isModalVisible)
    {
      alarms := WithEnabled(alarms, id, enabled);
    }

    /** `sendAlarmsToDevice`: the routine run on the alarms' payloads; the list itself is untouched. */
    method SendAlarmsToDevice(ble: BleReplies) returns (trace: seq<Event>, outcome: Outcome)
      modifies session
      ensures SendResult(trace, outcome, session.State()) == Send(AlarmPayloads(alarms), ble, old(session.State()))
    {
      trace, outcome := session.SendAlarms(AlarmPayloads(alarms), ble);
    }

    /** The disconnect listener. */
    method HandleDisconnect(peripheral: string)
      modifies session
      ensures session.State() == AfterDisconnect(old(session.State()), peripheral)
    {
      session.HandleDisconnect(peripheral);
    }
  }
}
