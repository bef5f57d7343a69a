/**
 * The create form of the typed app: it keeps the picked time, whether the
 * picker is shown and the enable switch, and hands the screen an
 * `HH:MM:SS` time built by zero-padding the hours, minutes and seconds.
 */
module CreateAlarmForm {
  import opened Wrappers
  import Decimal
  import Text

  type Hour = h: nat | h < 24
  type Minute = m: nat | m < 60
  type Second = s: nat | s < 60

  /** The fields of the picked `Date` the form reads: `getHours()`, `getMinutes()`, `getSeconds()`. */
  datatype TimeOfDay = TimeOfDay(hours: Hour, minutes: Minute, seconds: Second)

  /** What the form passes to `onAddAlarm`. */
  datatype NewAlarm = NewAlarm(time: string, enabled: bool)

  /** `n.toString().padStart(2, '0')`. */
  function Field(n: nat): string {
    Text.PadStart(Decimal.NatToString(n), 2, '0')
  }

  /** The field is the decimal numeral of `n` with `0` in front until it is two characters long. */
  lemma FieldIsPadded(n: nat)
    ensures var f, digits := Field(n), Decimal.NatToString(n);
      && |f| == (if |digits| >= 2 then |digits| else 2)
      && f[|f| - |digits|..] == digits
      && (forall i :: 0 <= i < |f| - |digits| ==> f[i] == '0')
      && Decimal.AllDigits(f)
  {
  }

  /** Padding keeps the value: a field reads back as the number it renders. */
  lemma FieldValue(n: nat)
    ensures Decimal.ParseNat(Field(n)) == n
  {
    var f := Field(n);
    FieldIsPadded(n);
    if n < 10 {
      var d := Decimal.DigitChar(n);
      assert Decimal.NatToString(n) == [d];
      assert f == ['0', d];
      assert f[..1] == ['0'] && f[1] == d;
      assert Decimal.ParseNat(['0']) == 0 by {
        assert ['0'][..0] == [];
      }
      assert Decimal.DigitValue(d) == n;
    } else {
      Decimal.ParseNatToString(n);
    }
  }

  /** A number below 100 takes exactly two characters once padded. */
  lemma FieldBelowHundred(n: nat)
    requires n < 100
    ensures |Field(n)| == 2 && Decimal.AllDigits(Field(n))
  {
    FieldIsPadded(n);
  }

  /** The time handed to the screen: `${hours}:${minutes}:${seconds}`. */
  function TimeString(t: TimeOfDay): string {
    Field(t.hours) + ":" + Field(t.minutes) + ":" + Field(t.seconds)
  }

  /** Three two-character fields joined by colons, and where each one sits. */
  lemma ColonJoined(a: string, b: string, c: string)
    requires |a| == 2 && |b| == 2 && |c| == 2
    ensures var s := a + ":" + b + ":" + c;
      && |s| == 8 && s[2] == ':' && s[5] == ':'
      && s[0..2] == a && s[3..5] == b && s[6..8] == c
  {
  }

  /** Every field of a time of day is two digits. */
  lemma TimeFields(t: TimeOfDay)
    ensures |Field(t.hours)| == 2 && |Field(t.minutes)| == 2 && |Field(t.seconds)| == 2
    ensures Decimal.AllDigits(Field(t.hours)) && Decimal.AllDigits(Field(t.minutes)) && Decimal.AllDigits(Field(t.seconds))
  {
    FieldBelowHundred(t.hours);
    FieldBelowHundred(t.minutes);
    FieldBelowHundred(t.seconds);
  }

  /** For hours below 24 and minutes and seconds below 60 the time is eight characters: digits, with `:` at 2 and 5. */
  lemma TimeStringShape(t: TimeOfDay)
    ensures var s := TimeString(t);
      && |s| == 8 && s[2] == ':' && s[5] == ':'
      && forall i :: 0 <= i < 8 && i != 2 && i != 5 ==> Decimal.IsDigit(s[i])
  {
    var hh, mm, ss := Field(t.hours), Field(t.minutes), Field(t.seconds);
    TimeFields(t);
    ColonJoined(hh, mm, ss);
    var s := TimeString(t);
    forall i | 0 <= i < 8 && i != 2 && i != 5 ensures Decimal.IsDigit(s[i]) {
      if i < 2 { assert s[i] == hh[i]; }
      else if i < 5 { assert s[i] == mm[i - 3]; }
      else { assert s[i] == ss[i - 6]; }
    }
  }

  /** Reads `HH:MM:SS` back; refuses another shape or a field out of range. */
  function ParseTime(s: string): (r: Option<TimeOfDay>)
    ensures r.Some? ==> |s| == 8 && s[2] == ':' && s[5] == ':'
  {
    if |s| != 8 || s[2] != ':' || s[5] != ':' then None
    else if !Decimal.AllDigits(s[0..2]) || !Decimal.AllDigits(s[3..5]) || !Decimal.AllDigits(s[6..8]) then None
    else
      var h, m, sec := Decimal.ParseNat(s[0..2]), Decimal.ParseNat(s[3..5]), Decimal.ParseNat(s[6..8]);
      if h < 24 && m < 60 && sec < 60 then Some(TimeOfDay(h, m, sec)) else None
  }

  /** Three two-digit fields in range, joined by colons, parse as that time. */
  lemma ParseColonJoined(a: string, b: string, c: string)
    requires |a| == 2 && |b| == 2 && |c| == 2
    requires Decimal.AllDigits(a) && Decimal.AllDigits(b) && Decimal.AllDigits(c)
    requires Decimal.ParseNat(a) < 24 && Decimal.ParseNat(b) < 60 && Decimal.ParseNat(c) < 60
    ensures ParseTime(a + ":" + b + ":" + c) == Some(TimeOfDay(Decimal.ParseNat(a), Decimal.ParseNat(b), Decimal.ParseNat(c)))
  {
    ColonJoined(a, b, c);
  }

  /** Parsing the two-digit fields of the built time gives back the hours, minutes and seconds. */
  lemma TimeStringRoundTrip(t: TimeOfDay)
    ensures ParseTime(TimeString(t)) == Some(t)
  {
    TimeFields(t);
    FieldValue(t.hours);
    FieldValue(t.minutes);
    FieldValue(t.seconds);
    ParseColonJoined(Field(t.hours), Field(t.minutes), Field(t.seconds));
  }

  /** Different times give different strings. */
  lemma TimeStringInjective(t: TimeOfDay, u: TimeOfDay)
    requires TimeString(t) == TimeString(u)
    ensures t == u
  {
    TimeStringRoundTrip(t);
    TimeStringRoundTrip(u);
  }

  /** The built time never holds the record separator. */
  lemma TimeStringHasNoComma(t: TimeOfDay)
    ensures ',' !in TimeString(t)
  {
    TimeStringShape(t);
  }

  class CreateAlarmModal {
    var alarmTime: TimeOfDay
    var showPicker: bool
    var alarmEnabled: bool

    /** The form opens on the current time, the picker hidden and the switch on. */
    constructor(now: TimeOfDay)
      ensures alarmTime == now && !showPicker && alarmEnabled
    {
      alarmTime := now;
      showPicker := false;
      alarmEnabled := true;
    }

    /** The "Set Time" button shows the picker. */
    method OpenPicker()
      modifies this
      ensures showPicker && alarmTime == old(alarmTime) && alarmEnabled == old(alarmEnabled)
    {
      showPicker := true;
    }

    /** The enable switch flips `alarmEnabled`. */
    method ToggleEnabled()
      modifies this
      ensures alarmEnabled == !old(alarmEnabled)
      ensures alarmTime == old(alarmTime) && showPicker == old(showPicker)
    {
      alarmEnabled := !alarmEnabled;
    }

    /**
     * `onTimeChange`: on Android the picker is hidden whatever happens; the
     * time changes only when a date was picked.
     */
    method OnTimeChange(isAndroid: bool, selected: Option<TimeOfDay>)
      modifies this
      ensures showPicker == if isAndroid then false else old(showPicker)
      ensures alarmTime == if selected.Some? then selected.value else old(alarmTime)
      ensures alarmEnabled == old(alarmEnabled)
    {
      if isAndroid {
        showPicker := false;
      }
      if selected.Some? {
        alarmTime := selected.value;
      }
    }

    /**
     * `handleAddAlarm`: hands over the padded time and the switch, then resets
     * the time to `now` and the switch to on.
     */
    method HandleAddAlarm(now: TimeOfDay) returns (added: NewAlarm)
      modifies this
      ensures added == NewAlarm(TimeString(old(alarmTime)), old(alarmEnabled))
      ensures alarmTime == now && alarmEnabled && showPicker == old(showPicker)
    {
      var picked := alarmTime;
      var hours := Field(picked.hours);
      var minutes := Field(picked.minutes);
      var seconds := Field(picked.seconds);
      var timeString := hours + ":" + minutes + ":" + seconds;
      assert timeString == TimeString(picked);
      added := NewAlarm(timeString, alarmEnabled);
      alarmTime := now;
      alarmEnabled := true;
    }
  }
}
