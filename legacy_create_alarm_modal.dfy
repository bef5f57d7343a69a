/**
 * The create form of the untyped app: three text fields (id, time and the
 * enabled flag, which starts as `1`) joined by commas into the record line the
 * screen keeps. Nothing checks the id or the time beyond their being non-empty.
 */
module LegacyCreateAlarmForm {

  /** What pressing "Add Alarm" does: alert about missing details, or hand the line to the screen. */
  datatype Submission = MissingDetails | Added(line: string)

  /** `${alarmId},${alarmTime},${alarmEnabled}`. */
  function AlarmLine(id: string, time: string, enabled: string): string {
    id + "," + time + "," + enabled
  }

  /** `handleAddAlarm`'s decision: an empty id or time is refused, anything else is joined as it is. */
  function Submit(id: string, time: string, enabled: string): (r: Submission)
    ensures r.MissingDetails? <==> id == "" || time == ""
    ensures r.Added? ==> |r.line| == |id| + |time| + |enabled| + 2
    ensures r.Added? ==> r.line[..|id|] == id && r.line[|id|] == ','
    ensures r.Added? ==> r.line[|id| + 1..|id| + 1 + |time|] == time && r.line[|id| + 1 + |time|] == ','
    ensures r.Added? ==> r.line[|id| + |time| + 2..] == enabled
  {
    if id == "" || time == "" then MissingDetails else Added(AlarmLine(id, time, enabled))
  }

  class CreateAlarmModal {
    var alarmId: string
    var alarmTime: string
    var alarmEnabled: string

    /** The fields start empty, with the flag `1`. */
    constructor()
      ensures alarmId == "" && alarmTime == "" && alarmEnabled == "1"
    {
      alarmId := "";
      alarmTime := "";
      alarmEnabled := "1";
    }

    /** The id input's `onChangeText`. */
    method SetAlarmId(text: string)
      modifies this
      ensures alarmId == text && alarmTime == old(alarmTime) && alarmEnabled == old(alarmEnabled)
    {
      alarmId := text;
    }

    /** The time input's `onChangeText`. */
    method SetAlarmTime(text: string)
      modifies this
      ensures alarmTime == text && alarmId == old(alarmId) && alarmEnabled == old(alarmEnabled)
    {
      alarmTime := text;
    }

    /**
     * `handleAddAlarm`: with a field missing the form alerts and keeps its
     * fields; otherwise it hands over the line and resets to `''`, `''`, `'1'`.
     */
    method HandleAddAlarm() returns (r: Submission)
      modifies this
      ensures r == Submit(old(alarmId), old(alarmTime), old(alarmEnabled))
      ensures r.MissingDetails? ==> alarmId == old(alarmId) && alarmTime == old(alarmTime) && alarmEnabled == old(alarmEnabled)
      ensures r.Added? ==> alarmId == "" && alarmTime == "" && alarmEnabled == "1"
    {
      if alarmId == "" || alarmTime == "" {
        return MissingDetails;
      }
      r := Added(alarmId + "," + alarmTime + "," + alarmEnabled);
      alarmId := "";
      alarmTime := "";
      alarmEnabled := "1";
    }
  }
}
