# ResQ smart-device alert widget: the classification pass

ResQ's alert widget fetches a snapshot of building devices and occupants: a
JSON object from an id to a record. One pass over `Object.entries(data)`
sorts that snapshot into three results:

- a list of alerts. Each alert is `fire`, `no-signal` or `exit-blocked`, with
  the message `Unit ${unit}, ${key}: …` and the record's last notification;
- the occupant directory: every record that has `Name`, `DOB` and
  `Medical Conditions`, pushed unchanged;
- the set of units with a fire, from the fire and exit-blocked alerts.

The directory tab then highlights the occupants whose unit is in that set.
It picks an icon from each occupant's medical condition.

This project models that pass, the icon lookup and the highlight test, and
proves what they promise.

- `js_values.dfy` (`JsValues`): the parsed JSON values and the JavaScript
  semantics the pass relies on. It covers property lookup, with `None` for
  `undefined`, strict `=== true` / `=== false`, the template-literal
  conversion of a value to text, and SameValueZero as `includes` uses it.
- `sensor_alert_rule.dfy` (`SensorAlertRule`): the `FireAlert` shape, the
  message templates and the three-clause priority chain for one record.
- `alert_aggregator.dfy` (`AlertAggregator`): the pass. `Aggregate` states
  entry by entry what the pass computes. `ClassifySnapshot` is the loop of
  `fetchData`, written imperatively and proved equal to `Aggregate`. The
  lemmas state the per-record rules, order preservation and exactly which
  units are fire units.
- `person_display.dfy` (`PersonDisplay`): `getPersonIcon` and the
  `unitsWithFire.includes(person.Unit)` highlight.

The snapshot is a sequence of `(key, value)` pairs in `Object.entries`
order. A record is a `map<string, Value>`. A missing property is `None`, and
it is never taken to be `false`.

Some behaviour follows the code where a design description of the system
says something else:

- A record with the person fields and `"Is On"` goes into the directory and
  also through the alert chain. The two tests are independent `if`s, so the
  sensor test does not take precedence.
- A missing or non-boolean `"Fire Detected"` / `"Is Exit"` is not treated as
  `false`. Under `===` it matches neither `true` nor `false`.
- Exit-blocked alerts add their unit to the fire-unit set, as fire alerts do.
- A missing `Unit` has no sentinel. The message shows `undefined`, and
  `undefined` goes into the fire-unit set.
- Records are not skipped when a test fails on them. A snapshot entry that is
  not an object or an array (a number, a string, a boolean or `null`) makes
  `"Name" in status` throw a `TypeError`. That ends the whole pass with no
  results, so `Aggregate` returns `Failure(key)` of the first such entry.
- A person is recognised only by its fields. The code has no key-prefix test.

## Model

| member | source | states |
|---|---|---|
| `AlertAggregator.ClassifySnapshot` | src/SmartDeviceAlertWidget.tsx:224-261 | the loop over the entries, with its pushes onto `alerts` and `people` and its `fireUnits.add`, returns exactly `Aggregate(data)`: the three collections, or the key of the first entry whose `in` test throws |
| `AlertAggregator.ThrowKey` | src/SmartDeviceAlertWidget.tsx:228-229 | the pass fails iff some entry is neither an object nor an array; the key reported is that of the first such entry, and every entry before it passes the `in` tests |
| `AlertAggregator.AggregateAppend` | src/SmartDeviceAlertWidget.tsx:228-261 | the pass over `a + b` is the pass over `a` followed by the pass over `b`: the first exception wins, otherwise alerts and directory are concatenated in order and the fire units joined (no re-sorting) |
| `AlertAggregator.AlertsAppend` | src/SmartDeviceAlertWidget.tsx:237-257 | alerts of a concatenation are the alerts of the parts, in order |
| `AlertAggregator.DirectoryAppend` | src/SmartDeviceAlertWidget.tsx:229-231 | directory of a concatenation is the directory of the parts, in order |
| `AlertAggregator.FireUnitsAppend` | src/SmartDeviceAlertWidget.tsx:243-258 | fire units of a concatenation are the union of the parts' fire units |
| `AlertAggregator.AlertsOfEntry` | src/SmartDeviceAlertWidget.tsx:233-260 | with distinct keys, the alerts under an entry's key are exactly the rule's result for that record (zero or one alert), whether or not the record also has the person fields |
| `AlertAggregator.FireRecordRaisesFireAlert` | src/SmartDeviceAlertWidget.tsx:236-243 | a record with "Is On", `Fire Detected === true` and `Is Exit === false` gives exactly one alert under its key: type fire, text `Unit ${unit}, ${key}: Fire Detected`, its last notification; this holds even when `Is On === false` (priority); its unit is a fire unit |
| `AlertAggregator.OffRecordRaisesNoSignalAlert` | src/SmartDeviceAlertWidget.tsx:244-250 | a record that fails the fire clause and has `Is On === false` gives exactly one no-signal alert with text `Unit ${unit}, ${key}: No Signal`; the fire units are those of the other entries alone |
| `AlertAggregator.BlockedExitRaisesExitBlockedAlert` | src/SmartDeviceAlertWidget.tsx:251-258 | `Fire Detected === true`, `Is Exit === true` and `Is On` not `=== false` give exactly one exit-blocked alert with text `Unit ${unit}, ${key}: Exit Blocked`; its unit is a fire unit |
| `AlertAggregator.UndecidedRecordRaisesNothing` | src/SmartDeviceAlertWidget.tsx:233-260 | a record without "Is On", or one whose `Is On` is not `false` and whose "Fire Detected" or "Is Exit" is missing or not a boolean, gives no alert and adds no fire unit |
| `AlertAggregator.PersonRecordJoinsDirectory` | src/SmartDeviceAlertWidget.tsx:229-231 | a record with Name, DOB and Medical Conditions appears in the directory unchanged, after the directory of the entries before it and before that of the entries after it |
| `AlertAggregator.UnclassifiedRecordIsDropped` | src/SmartDeviceAlertWidget.tsx:228-233 | an object or array that is neither a person nor a sensor changes nothing: the pass gives the same outcome with the entry removed |
| `AlertAggregator.FireUnitsAreUnitsOfFireAlerts` | src/SmartDeviceAlertWidget.tsx:226-265 | a unit is in the fire-unit set iff it is the unit of a record under whose key the pass raised a fire or exit-blocked alert |
| `AlertAggregator.FiringEntryRaisesFireAlert` | src/SmartDeviceAlertWidget.tsx:236-258 | an entry whose record fires (fire or exit-blocked) has a fire or exit-blocked alert under its key in the pass's alerts |
| `AlertAggregator.FireAlertComesFromFiringEntry` | src/SmartDeviceAlertWidget.tsx:236-258 | with distinct keys, a fire or exit-blocked alert under an entry's key means that entry's record fires and its unit is in the fire-unit set |
| `AlertAggregator.FireUnitsSingle` | src/SmartDeviceAlertWidget.tsx:243-258 | one entry adds exactly its own unit to the fire units, and only when its alert is fire or exit-blocked |
| `AlertAggregator.AggregateSingle` | src/SmartDeviceAlertWidget.tsx:228-260 | one entry contributes its rule alert, itself to the directory if it has the person fields, and its unit if its alert is fire or exit-blocked; a primitive entry fails the pass |
| `AlertAggregator.ExampleFireAndOccupant` | src/SmartDeviceAlertWidget.tsx:224-265 | a fire sensor `d1` in unit 5 and an occupant of unit 5 give alerts `[fire "Unit 5, d1: Fire Detected"]`, directory `[occupant]`, fire units `{5}` |
| `AlertAggregator.ExampleSensorRule` | src/SmartDeviceAlertWidget.tsx:236-243 | the fire sensor `d1` of unit 5 with no last notification gets the alert "Unit 5, d1: Fire Detected" with an undefined last notification |
| `AlertAggregator.AggregatePair` | src/SmartDeviceAlertWidget.tsx:228-261 | two entries that each pass give their alerts and directory entries one after the other and the union of their fire units |
| `AlertAggregator.ExampleOffSensor` | src/SmartDeviceAlertWidget.tsx:244-250 | an off sensor reporting fire at an exit gives one no-signal alert with its last notification, and no fire unit |
| `AlertAggregator.ExampleBareNumber` | src/SmartDeviceAlertWidget.tsx:228-229 | a number among the entries fails the pass at that number's key |
| `SensorAlertRule.SensorAlert` | src/SmartDeviceAlertWidget.tsx:233-260 | no alert without "Is On"; otherwise the alert's kind is the first clause of fire, no-signal, exit-blocked whose condition holds under strict equality, no earlier clause holds, there is no alert iff no clause holds, and the alert carries the key, the templated text and the record's "Last Notification" verbatim |
| `SensorAlertRule.FirstClauseDecides` | src/SmartDeviceAlertWidget.tsx:233-260 | a record with "Is On" whose clause holds while no earlier clause does gets exactly that clause's alert |
| `SensorAlertRule.AlertTextNamesKind` | src/SmartDeviceAlertWidget.tsx:239-253 | each message starts with "Unit " and its ending alone tells its kind, whatever the unit and key hold |
| `JsValues.IntDecimalRoundTrip` | src/SmartDeviceAlertWidget.tsx:239 | the decimal text a numeric unit takes in a message reads back to that number |
| `JsValues.IntToDecimalInjective` | src/SmartDeviceAlertWidget.tsx:239 | two different numeric units never give the same text |
| `PersonDisplay.PersonIconOfLowered` | src/SmartDeviceAlertWidget.tsx:271-272 | the icon depends only on the lower-cased condition |
| `PersonDisplay.ToLowerIdempotent` | src/SmartDeviceAlertWidget.tsx:272 | lower-casing twice is lower-casing once |
| `PersonDisplay.PersonIconCases` | src/SmartDeviceAlertWidget.tsx:271-282 | personmobility.png, personvision.png or personhearing.png iff the condition spells that word with each letter in either case; person.png iff it spells none of them |
| `PersonDisplay.PersonIconExamples` | src/SmartDeviceAlertWidget.tsx:271-282 | "Vision", "VISION" and "vision" all give personvision.png |
| `PersonDisplay.PlainIconExamples` | src/SmartDeviceAlertWidget.tsx:271-282 | "" and "unknown" give person.png |
| `PersonDisplay.IsInFireUnitIsMembership` | src/SmartDeviceAlertWidget.tsx:345 | `includes(person.Unit)` holds iff the unit is a primitive or `undefined` and is in the set |
| `PersonDisplay.HighlightMeansFireAlertInUnit` | src/SmartDeviceAlertWidget.tsx:345 | a directory entry is highlighted iff its unit is comparable and is the unit of a record that raised a fire or exit-blocked alert |

## Left out

- The HTTP fetch (`DeviceStatusApi.getData`). The snapshot is a parameter of the pass.
- The React state hooks, `useEffect` and the async wrapper. The pass returns its three collections instead of setting component state. On an exception it returns the failing key, where the component would keep its earlier state.
- Rendering: the tabs, CSS classes, alert icons and the static emergency contact list.
- The chat widget. It forwards the snapshot to a third-party completion service.
- The commented-out older copy of the widget. It differs only in not copying `lastNotification`.
- Non-integer JSON numbers, and the exponent notation JavaScript uses for integers of 10^21 and above. Numbers are integers written in plain decimal.
- The order of `Object.entries`, which lists integer-like keys first. The snapshot is taken as already in iteration order.
- `Array.from(fireUnits)` order. The units are only tested for membership, so they are a set.
- `PersonDisplay.IsInFireUnit`: an array- or object-valued `Unit` never matches. In JavaScript it would match if the same record were both the person and the alerting sensor, because the set then holds the very same reference.
- `JsValues.ValueToString`: an object is always `[object Object]`. Objects with their own `toString` or `valueOf` property are not modelled.
- `PersonDisplay.PersonIcon`: only ASCII letters are lower-cased, not full Unicode `toLowerCase`. A non-string medical condition, which would throw at render time, is not modelled.
