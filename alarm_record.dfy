/**
 * The alarm entity of the typed app and the text and bytes the peripheral
 * receives for it: the record line `{id},{time},{1|0}`, sent as the UTF-8
 * bytes of the Base64 text of the line's UTF-8 bytes.
 */
module AlarmRecord {
  import opened Wrappers
  import opened Bytes
  import Decimal
  import Text
  import Utf8
  import Base64

  /** One alarm: the id the store gave it, its `HH:MM:SS` time and whether it rings. */
  datatype Alarm = Alarm(id: int, time: string, enabled: bool)

  /** The record line: the id in decimal, the time, then `1` when enabled and `0` otherwise. */
  function RecordLine(a: Alarm): string {
    Decimal.IntToString(a.id) + "," + a.time + "," + (if a.enabled then "1" else "0")
  }

  /** Reads a record line back; refuses anything but three comma-separated fields with a numeral first and `0` or `1` last. */
  function ParseRecordLine(line: string): Option<Alarm> {
    var fields := Text.Split(line, ',');
    if |fields| != 3 || !Decimal.IsIntNumeral(fields[0]) || fields[2] !in {"0", "1"} then None
    else Some(Alarm(Decimal.ParseInt(fields[0]), fields[1], fields[2] == "1"))
  }

  /**
   * The line carries the whole record: reading it back gives the alarm, provided
   * its time text has no comma (a time built by the form never has one).
   */
  lemma ParseRecordLineRoundTrip(a: Alarm)
    requires ',' !in a.time
    ensures ParseRecordLine(RecordLine(a)) == Some(a)
  {
    var id, flag := Decimal.IntToString(a.id), if a.enabled then "1" else "0";
    assert RecordLine(a) == id + [','] + a.time + [','] + flag;
    Text.SplitThree(id, a.time, flag, ',');
    Decimal.IntToStringRoundTrip(a.id);
  }

  /** The Base64 text of the line's UTF-8 bytes. */
  function Base64Text(line: string): (text: string)
    ensures Utf8.IsAscii(text)
    ensures forall i :: 0 <= i < |text| ==> Base64.IsEncodingChar(text[i])
  {
    Base64.Encode(Utf8.Encode(line))
  }

  /** The value written for a create/update: one byte per Base64 character, four bytes per three bytes of UTF-8. */
  function WirePayload(line: string): (bytes: seq<byte>)
    ensures |bytes| == (|Utf8.Encode(line)| + 2) / 3 * 4
    ensures forall i :: 0 <= i < |bytes| ==> bytes[i] == Base64Text(line)[i] as int
  {
    var text := Base64Text(line);
    Utf8.EncodeAscii(text);
    Utf8.Encode(text)
  }

  /** What the peripheral does with a create/update value: UTF-8, then Base64, then UTF-8 decoding. */
  function DecodeWirePayload(bytes: seq<byte>): Option<string> {
    match Utf8.Decode(bytes)
    case None => None
    case Some(text) =>
      match Base64.Decode(text)
      case None => None
      case Some(raw) => Utf8.Decode(raw)
  }

  /** Each layer undoes its encoding: the peripheral reads exactly the line that was sent. */
  lemma WirePayloadRoundTrip(line: string)
    ensures Utf8.Decode(WirePayload(line)) == Some(Base64Text(line))
    ensures Base64.Decode(Base64Text(line)) == Some(Utf8.Encode(line))
    ensures DecodeWirePayload(WirePayload(line)) == Some(line)
  {
    Utf8.DecodeEncode(Base64Text(line));
    Base64.DecodeEncode(Utf8.Encode(line));
    Utf8.DecodeEncode(line);
  }

  /** The value written by the test screen: the line's UTF-8 bytes with no Base64 layer. */
  function RawPayload(line: string): (bytes: seq<byte>)
    ensures Utf8.Decode(bytes) == Some(line)
  {
    Utf8.DecodeEncode(line);
    Utf8.Encode(line)
  }

  /** Every comma-free alarm of a list reads back from its record line. */
  lemma EachRecordLineParses(alarms: seq<Alarm>)
    ensures forall i :: 0 <= i < |alarms| && ',' !in alarms[i].time ==>
      ParseRecordLine(RecordLine(alarms[i])) == Some(alarms[i])
  {
    forall i | 0 <= i < |alarms| && ',' !in alarms[i].time {
      ParseRecordLineRoundTrip(alarms[i]);
    }
  }

  /**
   * The record lines of a list of alarms, in list order; when no time holds a
   * comma, line i reads back as alarm i.
   */
  function RecordLines(alarms: seq<Alarm>): (lines: seq<string>)
    ensures |lines| == |alarms|
    ensures forall i :: 0 <= i < |alarms| ==> lines[i] == RecordLine(alarms[i])
    ensures (forall i :: 0 <= i < |alarms| ==> ',' !in alarms[i].time) ==>
      forall i :: 0 <= i < |lines| ==> ParseRecordLine(lines[i]) == Some(alarms[i])
  {
    EachRecordLineParses(alarms);
    seq(|alarms|, i requires 0 <= i < |alarms| => RecordLine(alarms[i]))
  }

  lemma EachWirePayloadDecodes(lines: seq<string>)
    ensures forall i :: 0 <= i < |lines| ==> DecodeWirePayload(WirePayload(lines[i])) == Some(lines[i])
  {
    forall i | 0 <= i < |lines| {
      WirePayloadRoundTrip(lines[i]);
    }
  }

  /** The payloads the alarms screens write for a list of lines: one per line, in order, each decoding back to its line. */
  function WirePayloads(lines: seq<string>): (payloads: seq<seq<byte>>)
    ensures |payloads| == |lines|
    ensures forall i :: 0 <= i < |lines| ==> payloads[i] == WirePayload(lines[i])
    ensures forall i :: 0 <= i < |lines| ==> DecodeWirePayload(payloads[i]) == Some(lines[i])
  {
    EachWirePayloadDecodes(lines);
    seq(|lines|, i requires 0 <= i < |lines| => WirePayload(lines[i]))
  }
}
