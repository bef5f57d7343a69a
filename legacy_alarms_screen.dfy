/**
 * The untyped alarms screen: alarms are kept as the record lines the create
 * form builds, deleted by list position with `splice`, and sent as the
 * Base64 text of each line. Nothing is loaded from or saved to storage.
 */
module LegacyAlarmsScreenModel {
  import opened Wrappers
  import opened Bytes
  import opened AlarmRecord
  import opened Ble
  import opened AlarmSync
  import opened Session

  /**
   * Where `splice(index, 1)` starts on a list of `len` elements: a negative
   * index counts from the end (clamped at 0), a large one is clamped at `len`.
   */
  function SpliceStart(len: nat, index: int): (start: nat)
    ensures start <= len
    ensures 0 <= index <= len ==> start == index
  {
    if index < 0 then (if len + index < 0 then 0 else len + index)
    else if index > len then len
    else index
  }

  /** The list after `splice(index, 1)`: the element at the start position goes, if there is one. */
  function WithoutIndex(alarms: seq<string>, index: int): seq<string> {
    var k := SpliceStart(|alarms|, index);
    if k < |alarms| then alarms[..k] + alarms[k + 1..] else alarms
  }

  /** Deleting at a position inside the list removes exactly that line and keeps the others in order. */
  lemma WithoutIndexInRange(alarms: seq<string>, index: int)
    requires 0 <= index < |alarms|
    ensures var r := WithoutIndex(alarms, index);
      && |r| == |alarms| - 1
      && (forall i :: 0 <= i < index ==> r[i] == alarms[i])
      && (forall i :: index <= i < |r| ==> r[i] == alarms[i + 1])
      && multiset(r) + multiset{alarms[index]} == multiset(alarms)
  {
    var r := WithoutIndex(alarms, index);
    assert alarms == alarms[..index] + [alarms[index]] + alarms[index + 1..];
    assert r == alarms[..index] + alarms[index + 1..];
  }

  /** A position at or past the end deletes nothing. */
  lemma WithoutIndexPastEnd(alarms: seq<string>, index: int)
    requires index >= |alarms|
    ensures WithoutIndex(alarms, index) == alarms
  {
  }

  /** A negative position counts from the end; one before the start removes the first line. */
  lemma WithoutIndexNegative(alarms: seq<string>, index: int)
    requires index < 0 && |alarms| > 0
    ensures var k := if -index <= |alarms| then |alarms| + index else 0;
      WithoutIndex(alarms, index) == WithoutIndex(alarms, k)
  {
  }

  /** Once the routine reaches the write loop, write `i` carries line `i`, for every write issued. */
  lemma SentLinesDecode(alarms: seq<string>, ble: BleReplies, st: SendState)
    requires ReachesWriteLoop(WirePayloads(alarms), ble)
    ensures var w := Writes(Send(WirePayloads(alarms), ble, st).trace);
      && |w| == WritesIssued(WirePayloads(alarms), ble) <= |alarms|
      && forall i :: 0 <= i < |w| ==> w[i].Write? && DecodeWirePayload(w[i].data) == Some(alarms[i])
  {
    SendWritesPayloads(WirePayloads(alarms), ble, st);
  }

  class LegacyAlarmsScreen {
    var alarms: seq<string>
    var isModalVisible: bool
    const session: DeviceSession

    /** On mount: no alarms, the form hidden, nothing loading or connected. */
    constructor()
      ensures alarms == [] && !isModalVisible
      ensures fresh(session) && session.State() == SendState(false, NoStage, None, None)
    {
      alarms := [];
      isModalVisible := false;
      session := new DeviceSession();
    }

    method OpenModal()
      modifies this
      ensures isModalVisible && alarms == old(alarms)
    {
      isModalVisible := true;
    }

    method CloseModal()
      modifies this
      ensures !isModalVisible && alarms == old(alarms)
    {
      isModalVisible := false;
    }

    /** `addAlarm`: appends the line the form built and closes the form. */
    method AddAlarm(newAlarm: string)
      modifies this
      ensures alarms == old(alarms) + [newAlarm] && !isModalVisible
    {
      alarms := alarms + [newAlarm];
      CloseModal();
    }

    /** `deleteAlarmFromList`: splices one line out of a copy of the list at the position. */
    method DeleteAlarmFromList(index: int)
      modifies this
      ensures alarms == WithoutIndex(old(alarms), index) && isModalVisible == old(isModalVisible)
    {
      var start := SpliceStart(|alarms|, index);
      if start < |alarms| {
        alarms := alarms[..start] + alarms[start + 1..];
      }
    }

    /** `sendAlarmsToDevice`: the routine run on the lines' payloads; the list itself is untouched. */
    method SendAlarmsToDevice(ble: BleReplies) returns (trace: seq<Event>, outcome: Outcome)
      modifies session
      ensures SendResult(trace, outcome, session.State()) == Send(WirePayloads(alarms), ble, old(session.State()))
    {
      trace, outcome := session.SendAlarms(WirePayloads(alarms), ble);
    }

    /** The disconnect listener. */
    method HandleDisconnect(peripheral: string)
      modifies session
      ensures session.State() == AfterDisconnect(old(session.State()), peripheral)
    {
      session.HandleDisconnect(peripheral);
    }
  }
}
