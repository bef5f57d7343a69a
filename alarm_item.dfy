/**
 * One row of the untyped alarm list: it splits the stored line at its commas
 * into id, time and flag, shows the alarm as enabled exactly when the flag is
 * `1`, and reports the switch and the delete button by the row's index.
 */
module AlarmItemView {
  import opened Wrappers
  import Text
  import Decimal
  import AlarmRecord
  import LegacyCreateAlarmForm
  import LegacyAlarmsScreenModel

  /** `const [id, time, enabled] = item.split(',')`: a piece past the end is `undefined`. */
  datatype ItemFields = ItemFields(id: string, time: Option<string>, flag: Option<string>)

  function Fields(item: string): ItemFields {
    var pieces := Text.Split(item, ',');
    ItemFields(
      pieces[0],
      if |pieces| >= 2 then Some(pieces[1]) else None,
      if |pieces| >= 3 then Some(pieces[2]) else None)
  }

  /** `enabled === '1'`: a missing or any other flag shows the alarm as disabled. */
  predicate IsEnabled(item: string) {
    Fields(item).flag == Some("1")
  }

  /** What the row reports to the list. */
  datatype ItemAction = ToggleAt(index: int, enabled: bool) | DeleteAt(index: int)

  /** `handleToggle`: the row's index and the switch's new value. */
  function HandleToggle(index: int, value: bool): ItemAction {
    ToggleAt(index, value)
  }

  /** The delete button: the row's index. */
  function HandleDelete(index: int): ItemAction {
    DeleteAt(index)
  }

  /** The first piece of a join is where it starts. */
  lemma {:induction false} JoinStartsWithFirst(pieces: seq<string>, sep: char)
    requires |pieces| >= 1
    ensures pieces[0] <= Text.Join(pieces, sep)
  {
    if |pieces| > 1 {
      assert Text.Join(pieces, sep) == pieces[0] + ([sep] + Text.Join(pieces[1..], sep));
    }
  }

  /**
   * The fields are where the line says: the id is the text before the first
   * comma, the time is present exactly when the line has a comma and follows
   * it, and the flag follows the second comma.
   */
  lemma FieldsInLine(item: string)
    ensures var f := Fields(item);
      && ',' !in f.id && f.id <= item
      && (f.time.Some? <==> ',' in item)
      && (f.time.Some? ==> ',' !in f.time.value && f.id + [','] + f.time.value <= item)
      && (f.flag.Some? ==> f.time.Some? && ',' !in f.flag.value
                           && f.id + [','] + f.time.value + [','] + f.flag.value <= item)
  {
    var pieces := Text.Split(item, ',');
    var f := Fields(item);
    Text.JoinSplit(item, ',');
    JoinStartsWithFirst(pieces, ',');
    if |pieces| == 1 {
      assert item == pieces[0];
    } else {
      var rest := Text.Join(pieces[1..], ',');
      assert item == pieces[0] + [','] + rest;
      assert item[|pieces[0]|] == ',';
      JoinStartsWithFirst(pieces[1..], ',');
      if |pieces| >= 3 {
        var rest2 := Text.Join(pieces[2..], ',');
        assert pieces[1..][1..] == pieces[2..];
        assert rest == pieces[1] + [','] + rest2;
        JoinStartsWithFirst(pieces[2..], ',');
        assert item == pieces[0] + [','] + pieces[1] + [','] + rest2;
      }
    }
  }

  /** A line the form built from comma-free fields splits back into those fields. */
  lemma FormLineRoundTrip(id: string, time: string, flag: string)
    requires ',' !in id && ',' !in time && ',' !in flag
    ensures Fields(LegacyCreateAlarmForm.AlarmLine(id, time, flag)) == ItemFields(id, Some(time), Some(flag))
    ensures IsEnabled(LegacyCreateAlarmForm.AlarmLine(id, time, flag)) <==> flag == "1"
  {
    Text.SplitThree(id, time, flag, ',');
  }

  /** The row of a typed record line shows its time and shows it enabled exactly when the alarm is. */
  lemma RecordLineAsItem(a: AlarmRecord.Alarm)
    requires ',' !in a.time
    ensures Fields(AlarmRecord.RecordLine(a)).time == Some(a.time)
    ensures IsEnabled(AlarmRecord.RecordLine(a)) <==> a.enabled
  {
    var id, flag := Decimal.IntToString(a.id), if a.enabled then "1" else "0";
    assert AlarmRecord.RecordLine(a) == id + [','] + a.time + [','] + flag;
    Text.SplitThree(id, a.time, flag, ',');
  }

  /** Pressing delete on row `index` of the untyped screen removes exactly that row and keeps the others in order. */
  lemma DeleteRemovesRow(alarms: seq<string>, index: int)
    requires 0 <= index < |alarms|
    ensures var r := LegacyAlarmsScreenModel.WithoutIndex(alarms, HandleDelete(index).index);
      && |r| == |alarms| - 1
      && r == alarms[..index] + alarms[index + 1..]
  {
    LegacyAlarmsScreenModel.WithoutIndexInRange(alarms, index);
  }
}
