# Alarm list and device sync of the BLE alarm-clock example

This project models the logic of the alarm-clock example app that ships with
`react-native-ble-manager`. The app keeps a list of alarms on the phone and
sends it to one Bluetooth Low Energy peripheral named `GentlyDevice`. It has
two generations of screens:

- the typed app (`example/src/…`): alarms are `{id, time, enabled}` records,
  ids come from `getNextAvailableId`, the list is restored from storage on
  mount, and each alarm goes to the device as the line `{id},{time},{1|0}`,
  UTF-8 encoded, then Base64 encoded (section 4 of RFC 4648), then UTF-8
  encoded again;
- the older app (`example/screens/…`, `example/components/…`): alarms are the
  comma-joined lines the form builds, deleted by list position with `splice`;
  a test screen writes three fixed lines as raw UTF-8 and then a delete
  request.

Modules, leaf first:

| file | module | what it holds |
|---|---|---|
| common.dfy | `Wrappers`, `Bytes` | `Option`; octets as integers 0..255 |
| decimal.dfy | `Decimal` | decimal rendering of integers and its inverse |
| text.dfy | `Text` | `split`, `join`, `padStart`, ASCII `toLowerCase` |
| utf8.dfy | `Utf8` | RFC 3629 encoder and strict decoder |
| base64.dfy | `Base64` | RFC 4648 section 4 encoder and decoder |
| alarm_record.dfy | `AlarmRecord` | the alarm record, its line, and the wire payloads |
| next_id.dfy | `AlarmIds` | `getNextAvailableId` as a loop, and its specification |
| alarm_list.dfy | `AlarmList` | add, delete-by-id and toggle as list values |
| ble.dfy | `Ble` | the library's replies as inputs; the trace of calls and alerts |
| alarm_sync.dfy | `AlarmSync` | `sendAlarmsToDevice` as a function of the replies |
| device_session.dfy | `Session` | the loading and connection fields, and the routine as imperative code |
| alarms_screen.dfy | `AlarmsScreenModel` | the typed alarms screen |
| legacy_alarms_screen.dfy | `LegacyAlarmsScreenModel` | the older alarms screen |
| create_alarm_modal.dfy | `CreateAlarmForm` | the typed create form and its `HH:MM:SS` builder |
| legacy_create_alarm_modal.dfy | `LegacyCreateAlarmForm` | the older create form |
| alarm_item.dfy | `AlarmItemView` | the older list row's split of a line |
| send_alarm_test.dfy | `SendAlarmTestModel` | the test screen's run |

The BLE library appears only through its replies. A `BleReplies` (or
`TestReplies`) value says whether the scan starts, whether the scan-stop event
arrives, which peripherals are discovered, whether connect resolves, which
characteristics `retrieveServices` lists, and which write (if any) throws. The
routine returns the trace of what it did (alerts, status messages, progress,
library calls and waits), how it ended, and the screen fields afterwards.
Progress is the integer pair `(i+1, n)`.

The state the source keeps in React hooks is modelled as classes. Each method
is proved against a function of the old state: `DeviceSession.SendAlarms`
against `AlarmSync.Send`, `SendAlarmTest.ConnectAndSendData` against
`TestRun`, and so on. The properties are lemmas about those functions.

The code has no scan watchdog. It does not reject a second run while one
is in progress. It has no typed error kinds. A disconnect event does not stop
the write loop: the listener only clears `connectedDevice` when the ids match.
If the scan-stop event never arrives, the routine waits forever with loading
on (`WaitingForScanStop`). A missing stored value leaves the list as it is,
rather than emptying it. The test screen matches UUIDs exactly, not ignoring
case, and its delete request is the fixed id `"2"`.

## Model

| member | source | states |
|---|---|---|
| AlarmIds.GetNextAvailableId | example/src/utils/getNextAvailableId.ts:10-17 | the loop returns an id >= 1 that no alarm uses, every k in [1, id) is used, and id <= length + 1; it equals `NextAvailableId` |
| AlarmIds.NextAvailableId | example/src/utils/getNextAvailableId.ts:5-16 | the smallest positive integer missing from the list's ids, at most length + 1 |
| AlarmIds.LeastFreeFrom | example/src/utils/getNextAvailableId.ts:12-15 | counting up from k past used ids ends at the first free one, within \|used\| + 1 |
| AlarmIds.IdsBound | example/src/utils/getNextAvailableId.ts:11 | a list has at most as many distinct ids as alarms |
| AlarmIds.Pigeonhole | example/src/utils/getNextAvailableId.ts:13-15 | a set holding 1..n-1 has at least n-1 members, which bounds the loop |
| AlarmIds.LeastFreeIsUnique | example/src/utils/getNextAvailableId.ts:5-6 | any positive, unused id below which all ids are used is the allocated one |
| AlarmIds.NextIdIgnoresOrderAndRepeats | example/src/utils/getNextAvailableId.ts:11 | the id depends only on the set of ids in use, not on the order, repeats, times or flags of the alarms |
| AlarmIds.FreshIdKeepsIdsUnique | example/src/utils/getNextAvailableId.ts:13-16 | appending an alarm with the allocated id keeps distinct ids distinct |
| AlarmList.AddAppendsFreshAlarm | example/src/screens/AlarmsScreen.tsx:219-229 | add appends one record at the end with the smallest free id, time and flag; earlier records unchanged; ids gain exactly the new id; uniqueness kept |
| AlarmList.WithoutId | example/src/screens/AlarmsScreen.tsx:231-235 | every record with the id is gone and every other record keeps its multiplicity |
| AlarmList.WithoutIdIsSubsequence | example/src/screens/AlarmsScreen.tsx:233 | the records kept by delete stay in their order |
| AlarmList.WithoutAbsentId | example/src/screens/AlarmsScreen.tsx:233 | deleting an absent id leaves the list unchanged |
| AlarmList.WithoutIdMembers | example/src/screens/AlarmsScreen.tsx:233 | a record survives delete iff it was present and has another id |
| AlarmList.WithoutIdIds | example/src/screens/AlarmsScreen.tsx:233 | after delete the id set is the old one minus the id |
| AlarmList.WithoutIdKeepsIdsUnique | example/src/screens/AlarmsScreen.tsx:231-235 | delete keeps distinct ids distinct |
| AlarmList.WithEnabled | example/src/screens/AlarmsScreen.tsx:238-244 | toggle keeps length, order, ids and times, and changes `enabled` only on records with the id |
| AlarmList.WithEnabledAbsentId | example/src/screens/AlarmsScreen.tsx:240-242 | toggling an absent id leaves the list unchanged |
| AlarmList.WithEnabledKeepsIds | example/src/screens/AlarmsScreen.tsx:240-242 | toggle keeps the id set |
| AlarmList.WithEnabledKeepsIdsUnique | example/src/screens/AlarmsScreen.tsx:238-244 | toggle keeps distinct ids distinct |
| AlarmList.WithEnabledTwice | example/src/screens/AlarmsScreen.tsx:240-242 | toggling twice keeps only the second value |
| AlarmList.FreedIdIsReused | example/src/screens/AlarmsScreen.tsx:219-235 | add, add, delete id 1, add gives ids 1, 2 and then 1 again |
| AlarmsScreenModel.LoadedAlarms | example/src/screens/AlarmsScreen.tsx:42-62 | a stored array replaces the list, a non-array or a read/parse error empties it, nothing stored leaves it unchanged |
| AlarmsScreenModel.LoadSavedAlarms | example/src/screens/AlarmsScreen.tsx:64-75 | loading what was saved restores that list, taking the JSON round trip as given |
| AlarmsScreenModel.AlarmPayloads | example/src/screens/AlarmsScreen.tsx:176-183 | one payload per alarm, and payload i decodes to alarm i's record line |
| AlarmsScreenModel.SentAlarmsDecode | example/src/screens/AlarmsScreen.tsx:176-194 | once the write loop is reached, write i carries alarm i's line, for every write issued |
| AlarmsScreenModel.AlarmsScreen.constructor | example/src/screens/AlarmsScreen.tsx:27-35 | the screen starts with no alarms, form hidden, not loading, not connected |
| AlarmsScreenModel.AlarmsScreen.LoadAlarms | example/src/screens/AlarmsScreen.tsx:42-62 | the list becomes `LoadedAlarms` of the stored value |
| AlarmsScreenModel.AlarmsScreen.OpenModal | example/src/screens/AlarmsScreen.tsx:211-213 | shows the form, list unchanged |
| AlarmsScreenModel.AlarmsScreen.CloseModal | example/src/screens/AlarmsScreen.tsx:215-217 | hides the form, list unchanged |
| AlarmsScreenModel.AlarmsScreen.AddAlarm | example/src/screens/AlarmsScreen.tsx:219-229 | the list becomes `WithAlarmAdded` of the old list, using the allocator loop, and the form closes |
| AlarmsScreenModel.AlarmsScreen.DeleteAlarmFromList | example/src/screens/AlarmsScreen.tsx:231-235 | the list becomes `WithoutId` of the old list |
| AlarmsScreenModel.AlarmsScreen.ToggleAlarm | example/src/screens/AlarmsScreen.tsx:238-244 | the list becomes `WithEnabled` of the old list |
| AlarmsScreenModel.AlarmsScreen.SendAlarmsToDevice | example/src/screens/AlarmsScreen.tsx:99-209 | trace, outcome and fields are those of `Send` on the alarms' payloads |
| AlarmsScreenModel.AlarmsScreen.HandleDisconnect | example/src/screens/AlarmsScreen.tsx:77-82 | the session fields become `AfterDisconnect` of the old ones |
| AlarmRecord.ParseRecordLineRoundTrip | example/src/screens/AlarmsScreen.tsx:178 | the record line reads back as the alarm when its time has no comma |
| AlarmRecord.Base64Text | example/src/screens/AlarmsScreen.tsx:180 | the Base64 text is ASCII, drawn from the alphabet and `=` |
| AlarmRecord.WirePayload | example/src/screens/AlarmsScreen.tsx:180-182 | the payload has one byte per Base64 character, 4 bytes per 3 bytes of UTF-8 |
| AlarmRecord.WirePayloadRoundTrip | example/src/screens/AlarmsScreen.tsx:178-182 | UTF-8-decoding the payload gives the Base64 text, Base64-decoding that gives the line's UTF-8, and the whole chain gives back the line |
| AlarmRecord.RecordLines | example/src/screens/AlarmsScreen.tsx:176-178 | one line per alarm in list order, and when no time holds a comma every line parses back as its alarm |
| AlarmRecord.WirePayloads | example/screens/AlarmsScreen.tsx:135-138 | one payload per stored line in order, each decoding back to its line unchanged |
| AlarmRecord.RawPayload | example/components/SendAlarmTest.tsx:88 | the raw payload UTF-8-decodes to the line |
| Base64.Encode | example/src/screens/AlarmsScreen.tsx:180 | output length is 4 * ceil(n / 3) and every character is in the alphabet or `=` |
| Base64.IndexOf | example/src/screens/AlarmsScreen.tsx:180 | a character's value maps back to that character |
| Base64.IndexOfCharOf | example/src/screens/AlarmsScreen.tsx:180 | each 6-bit value reads back from its character |
| Base64.DecodeEncodeGroup | example/src/screens/AlarmsScreen.tsx:180 | a full three-octet group round-trips |
| Base64.DecodeEncode | example/src/screens/AlarmsScreen.tsx:180 | decoding an encoding gives back the octets |
| Utf8.EncodeScalar | example/src/screens/AlarmsScreen.tsx:180 | one to four bytes per scalar value; one byte, equal to the code, exactly for ASCII |
| Utf8.Encode | example/src/screens/AlarmsScreen.tsx:180 | at least one byte per character, exactly one for ASCII text |
| Utf8.DecodeScalarOfEncode | example/src/screens/AlarmsScreen.tsx:180 | the decoder reads back one encoded scalar, whatever follows it |
| Utf8.DecodeEncode | example/src/screens/AlarmsScreen.tsx:182 | decoding an encoding gives back the text |
| Utf8.EncodeAscii | example/src/screens/AlarmsScreen.tsx:182 | ASCII text encodes to its character codes, one byte each |
| Decimal.NatToString | example/src/components/CreateAlarmModal.tsx:33 | the numeral is non-empty digits with no leading zero, one digit exactly below 10 |
| Decimal.IntToString | example/src/screens/AlarmsScreen.tsx:178 | the numeral of an id has no comma, with a minus sign exactly for negative ids |
| Decimal.ParseNatToString | example/src/components/CreateAlarmModal.tsx:33-35 | reading the numeral back gives the number |
| Decimal.IntToStringRoundTrip | example/src/screens/AlarmsScreen.tsx:178 | reading the id's numeral back gives the id |
| Text.Split | example/components/AlarmItem.tsx:13 | split gives at least one piece and no piece holds the separator |
| Text.JoinSplit | example/components/AlarmItem.tsx:13 | joining the pieces of a split gives back the text |
| Text.SplitThree | example/components/AlarmItem.tsx:13 | `a,b,c` with comma-free parts splits into exactly a, b, c |
| Text.PadStart | example/src/components/CreateAlarmModal.tsx:33-35 | the result is max(width, length) long, ends with the text and starts with fill characters |
| Text.ToLower | example/src/screens/AlarmsScreen.tsx:161-162 | lower-casing keeps the length and works character by character |
| Text.EqualIgnoringCaseAt | example/src/screens/AlarmsScreen.tsx:161-162 | texts are equal ignoring case iff equal length and equal character by character after lower-casing |
| Ble.ErrorText | example/src/screens/AlarmsScreen.tsx:207 | the alert text is the error's message, or exactly `An unknown error occurred` when the message is empty |
| Ble.FindIndex | example/src/screens/AlarmsScreen.tsx:127-129 | `find` picks the first position that satisfies the test, or none when no element does |
| Ble.Find | example/src/screens/AlarmsScreen.tsx:127-129 | `find` returns an element iff one passes, and then the first such |
| Ble.MatchIgnoresCase | example/src/screens/AlarmsScreen.tsx:159-163 | the characteristic test is case-insensitive equality of both UUIDs with the constants |
| AlarmSync.AfterDisconnect | example/src/screens/AlarmsScreen.tsx:77-82 | `connectedDevice` is cleared exactly when it is the disconnected peripheral; nothing else changes |
| AlarmSync.SendOutcome | example/src/screens/AlarmsScreen.tsx:99-209 | the outcome follows the replies in step order; loading stays on only while waiting for scan-stop; success and thrown errors reset progress |
| AlarmSync.SendWithoutAlarms | example/src/screens/AlarmsScreen.tsx:100-103 | an empty list gives only the "No Alarms" alert, no library call, and unchanged fields |
| AlarmSync.SendWithoutDevice | example/src/screens/AlarmsScreen.tsx:127-135 | with no `GentlyDevice` there is no connect and no write, and loading is cleared |
| AlarmSync.SendConnectsToFirstGentlyDevice | example/src/screens/AlarmsScreen.tsx:127-140 | the connect goes to the first peripheral named `GentlyDevice`, right after the discovered list |
| AlarmSync.SendRecordsConnectedDevice | example/src/screens/AlarmsScreen.tsx:137-142 | `connectedDevice` changes only when connect resolves, and then to that peripheral |
| AlarmSync.SendWithoutWriteLoop | example/src/screens/AlarmsScreen.tsx:156-169 | when any step before the loop fails, including a missing characteristic, no write and no progress are issued |
| AlarmSync.SendReachingWriteLoop | example/src/screens/AlarmsScreen.tsx:176-198 | one write per alarm in list order to the matched characteristic, with progress (i+1)/n after alarm i; a throwing write stops all later ones |
| AlarmSync.SendWritesPayloads | example/src/screens/AlarmsScreen.tsx:189-194 | write i carries payload i |
| AlarmSync.TransmitOutcome | example/src/screens/AlarmsScreen.tsx:176-208 | the loop ends failed at the first throwing write or sent, with loading off and progress reset |
| AlarmSync.TransmitEffects | example/src/screens/AlarmsScreen.tsx:176-198 | the loop's writes and progress reports, up to and including a throwing write |
| AlarmSync.TransmitPrefix | example/src/screens/AlarmsScreen.tsx:176-208 | the loop only appends to the events before it |
| AlarmSync.SendEntersLoop | example/src/screens/AlarmsScreen.tsx:105-176 | with all steps succeeding, the call is the loop after scan, connect, a 1 s wait, service lookup and a 500 ms wait |
| Session.DeviceSession.constructor | example/src/screens/AlarmsScreen.tsx:27-35 | not loading, no message, no progress, not connected |
| Session.DeviceSession.HandleDisconnect | example/screens/AlarmsScreen.tsx:35-40 | the fields become `AfterDisconnect` of the old ones |
| Session.DeviceSession.SendAlarms | example/screens/AlarmsScreen.tsx:57-165 | trace, outcome and fields equal `Send` of the payloads and old fields |
| Session.DeviceSession.ContinueAfterScan | example/screens/AlarmsScreen.tsx:83-112 | from the discovered list on, the method equals `AfterScan` |
| Session.DeviceSession.ContinueAfterConnect | example/screens/AlarmsScreen.tsx:112-132 | from the services lookup on, the method equals `AfterConnect` |
| Session.DeviceSession.WriteAlarms | example/screens/AlarmsScreen.tsx:135-163 | the write loop, with its invariants, equals `Transmit` |
| LegacyAlarmsScreenModel.SpliceStart | example/screens/AlarmsScreen.tsx:183 | `splice`'s start is within the list and is the index itself when the index is in range |
| LegacyAlarmsScreenModel.WithoutIndexInRange | example/screens/AlarmsScreen.tsx:181-184 | for 0 <= index < length, exactly that element goes: length - 1, earlier elements kept, later ones shifted down, same multiset minus it |
| LegacyAlarmsScreenModel.WithoutIndexPastEnd | example/screens/AlarmsScreen.tsx:183 | an index at or past the end deletes nothing |
| LegacyAlarmsScreenModel.WithoutIndexNegative | example/screens/AlarmsScreen.tsx:183 | a negative index counts from the end, clamped at 0 |
| LegacyAlarmsScreenModel.SentLinesDecode | example/screens/AlarmsScreen.tsx:135-150 | once the loop is reached, write i carries the stored line i unchanged under UTF-8/Base64/UTF-8 |
| LegacyAlarmsScreenModel.LegacyAlarmsScreen.constructor | example/screens/AlarmsScreen.tsx:21-29 | no alarms, form hidden, not loading, not connected |
| LegacyAlarmsScreenModel.LegacyAlarmsScreen.OpenModal | example/screens/AlarmsScreen.tsx:168-170 | shows the form, list unchanged |
| LegacyAlarmsScreenModel.LegacyAlarmsScreen.CloseModal | example/screens/AlarmsScreen.tsx:172-174 | hides the form, list unchanged |
| LegacyAlarmsScreenModel.LegacyAlarmsScreen.AddAlarm | example/screens/AlarmsScreen.tsx:176-179 | the new line is appended at the end, earlier lines unchanged, form closed |
| LegacyAlarmsScreenModel.LegacyAlarmsScreen.DeleteAlarmFromList | example/screens/AlarmsScreen.tsx:181-185 | the list becomes `WithoutIndex` of the old list |
| LegacyAlarmsScreenModel.LegacyAlarmsScreen.SendAlarmsToDevice | example/screens/AlarmsScreen.tsx:57-165 | trace, outcome and fields are those of `Send` on the lines' payloads |
| LegacyAlarmsScreenModel.LegacyAlarmsScreen.HandleDisconnect | example/screens/AlarmsScreen.tsx:35-40 | the session fields become `AfterDisconnect` of the old ones |
| CreateAlarmForm.FieldIsPadded | example/src/components/CreateAlarmModal.tsx:33-35 | each field is the decimal numeral left-padded with `0` to at least two characters |
| CreateAlarmForm.FieldValue | example/src/components/CreateAlarmModal.tsx:33-35 | padding keeps the value: the field reads back as the number |
| CreateAlarmForm.FieldBelowHundred | example/src/components/CreateAlarmModal.tsx:33-35 | a number below 100 gives exactly two digits |
| CreateAlarmForm.TimeStringShape | example/src/components/CreateAlarmModal.tsx:36 | for h < 24 and m, s < 60 the time has length 8, with `:` at 2 and 5 and digits elsewhere |
| CreateAlarmForm.ParseTime | example/src/components/CreateAlarmModal.tsx:36 | a parsed time has the `HH:MM:SS` shape |
| CreateAlarmForm.TimeStringRoundTrip | example/src/components/CreateAlarmModal.tsx:33-36 | parsing the two-digit fields gives back h, m and s |
| CreateAlarmForm.TimeStringInjective | example/src/components/CreateAlarmModal.tsx:33-36 | different times give different strings |
| CreateAlarmForm.TimeStringHasNoComma | example/src/components/CreateAlarmModal.tsx:36 | the time never holds the record separator |
| CreateAlarmForm.CreateAlarmModal.constructor | example/src/components/CreateAlarmModal.tsx:28-30 | the form starts on the current time, picker hidden, switch on |
| CreateAlarmForm.CreateAlarmModal.OpenPicker | example/src/components/CreateAlarmModal.tsx:76 | shows the picker, nothing else changes |
| CreateAlarmForm.CreateAlarmModal.ToggleEnabled | example/src/components/CreateAlarmModal.tsx:99 | flips `alarmEnabled`, nothing else changes |
| CreateAlarmForm.CreateAlarmModal.OnTimeChange | example/src/components/CreateAlarmModal.tsx:48-56 | the picker is hidden on Android; the time changes only when a date is supplied |
| CreateAlarmForm.CreateAlarmModal.HandleAddAlarm | example/src/components/CreateAlarmModal.tsx:32-46 | hands over the padded time and the switch, then resets the time to now and the switch to on |
| LegacyCreateAlarmForm.Submit | example/components/CreateAlarmModal.tsx:25-31 | refused iff id or time is empty; otherwise exactly id, comma, time, comma, flag, with no format check |
| LegacyCreateAlarmForm.CreateAlarmModal.constructor | example/components/CreateAlarmModal.tsx:21-23 | fields start as `''`, `''`, `'1'` |
| LegacyCreateAlarmForm.CreateAlarmModal.SetAlarmId | example/components/CreateAlarmModal.tsx:48 | sets the id field only |
| LegacyCreateAlarmForm.CreateAlarmModal.SetAlarmTime | example/components/CreateAlarmModal.tsx:55 | sets the time field only |
| LegacyCreateAlarmForm.CreateAlarmModal.HandleAddAlarm | example/components/CreateAlarmModal.tsx:25-36 | with a field missing the fields are kept; otherwise the line is handed over and the fields reset to `''`, `''`, `'1'` |
| AlarmItemView.FieldsInLine | example/components/AlarmItem.tsx:13 | id, time and flag are the first three comma-separated pieces; time is present iff the line has a comma |
| AlarmItemView.FormLineRoundTrip | example/components/AlarmItem.tsx:13-14 | the form's line with comma-free parts splits back into id, time and flag, and shows enabled iff the flag is `"1"` |
| AlarmItemView.RecordLineAsItem | example/components/AlarmItem.tsx:13-14 | a typed record line shows its time and shows enabled iff the alarm is |
| AlarmItemView.DeleteRemovesRow | example/components/AlarmItem.tsx:30 | delete on row i removes exactly row i from the older screen's list |
| SendAlarmTestModel.Filter | example/components/SendAlarmTest.tsx:55-57 | the filtered list holds exactly the elements that pass |
| SendAlarmTestModel.FindAfterFilter | example/components/SendAlarmTest.tsx:55-65 | finding in the filtered list is finding the first element that passes both tests |
| SendAlarmTestModel.FindExactIsFirstMatch | example/components/SendAlarmTest.tsx:55-65 | a characteristic is found iff one with exactly the service UUID and that characteristic UUID is listed |
| SendAlarmTestModel.UpperCaseUuidMissed | example/components/SendAlarmTest.tsx:59-61 | an upper-case UUID is matched by the alarms screens but missed by the exact match here |
| SendAlarmTestModel.DeletePayload | example/components/SendAlarmTest.tsx:102-104 | the delete payload is the single byte 0x32, the UTF-8 of the decimal id 2 |
| SendAlarmTestModel.TestRunEntersLoop | example/components/SendAlarmTest.tsx:27-77 | with every step succeeding, the run connects to the first `GentlyDevice` and enters the write loop after scan, a 5 s timer, connect, a 1 s wait, lookup and a 500 ms wait |
| SendAlarmTestModel.ThrowingCreateWrites | example/components/SendAlarmTest.tsx:87-100 | a throwing create/update write stops the writes at that line |
| SendAlarmTestModel.AllCreateWrites | example/components/SendAlarmTest.tsx:87-112 | without a throwing create write, every line is written and then the delete request |
| SendAlarmTestModel.TestRunWrites | example/components/SendAlarmTest.tsx:86-112 | create/update writes go in list order to the create characteristic, then the delete write goes to the delete characteristic; a throwing write stops later ones |
| SendAlarmTestModel.TestWritesCarryLines | example/components/SendAlarmTest.tsx:86-96 | each create write's bytes decode as its line with no Base64 step |
| SendAlarmTestModel.TestRunOutcome | example/components/SendAlarmTest.tsx:27-121 | the run ends `Done`, with the success alert last, iff every step and write succeeds; a scan error is alerted |
| SendAlarmTestModel.TestRunWithoutDevice | example/components/SendAlarmTest.tsx:36-43 | with no `GentlyDevice` the run alerts and issues no connect and no write |
| SendAlarmTestModel.TestRunWithoutCharacteristics | example/components/SendAlarmTest.tsx:67-70 | with either characteristic missing the run alerts and issues no write |
| SendAlarmTestModel.SendAlarmTest.ConnectAndSendData | example/components/SendAlarmTest.tsx:27-121 | trace, outcome and connected device equal `TestRun` on the three fixed lines |
| SendAlarmTestModel.SendAlarmTest.WriteTestAlarms | example/components/SendAlarmTest.tsx:86-115 | the write loop, with its invariants, and the delete write equal `SendTestLines` |
| SendAlarmTestModel.SendAlarmTest.constructor | example/components/SendAlarmTest.tsx:7 | not connected |

## Left out

- Durable storage (`AsyncStorage`), `JSON.parse` and `JSON.stringify`: loading takes an already-classified value (missing, unreadable, not an array, an array of alarms). The save effect appears only as `Saved`, which assumes JSON round-trips. Elements of a stored array are taken to be well-formed alarms.
- AlarmsScreenModel.LoadSavedAlarms: the save-then-load round trip holds by definition, since `Saved` is taken to be the array read back; it assumes `JSON.stringify`, `setItem`, `getItem` and `JSON.parse` return the list unchanged and does not establish it.
- The BLE native module (`start`, `scan`, `getDiscoveredPeripherals`, `connect`, `retrieveServices`, `write`, the event emitter): a foreign call, modelled only through its replies.
- Timer delays (1000 ms, 500 ms, the test screen's 5000 ms timer) appear as events in the trace, in order, with no notion of time.
- Progress is the pair `(i+1, n)`, not a floating-point fraction.
- `Date`, `getHours`, `getMinutes`, `getSeconds` and `toLocaleTimeString`: the form takes hours, minutes and seconds as bounded integers.
- Android permission requests in the test screen and `BleManager.start`.
- Listener concurrency: a disconnect event can arrive at any suspension point. The model applies `HandleDisconnect` as a separate step, so it does not show a disconnect interleaved with a run. The code never interrupts a run on disconnect in any case.
- React state batching: `addAlarm` computes the id from the rendered list and appends with a functional update. The model applies it as one sequential change.
- Logging (`console.log`, `console.warn`, `console.error`) and rendering.
- Text.ToLower: lower-cases only ASCII letters; `toLowerCase` on other characters is not modelled (the UUID constants are ASCII).
- Utf8.Encode: works on Unicode scalar values; `Buffer.from` replacing lone UTF-16 surrogates with U+FFFD is not modelled.
- Alarm ids are unbounded integers; JavaScript numbers that are not integers, and their decimal rendering, are not modelled.
- The older alarms screen passes no `toggleAlarm` to its list, so the row's switch has no handler there; the row's toggle report (`AlarmItemView.HandleToggle`) is modelled but not connected to any list change.
- If the scan-stop event never arrives, the routine waits forever; the model ends that run in `WaitingForScanStop` with loading still on.
