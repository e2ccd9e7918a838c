/**
 * The alert rule applied to one sensor record: the `FireAlert` shape, the
 * message templates and the three-clause priority chain that emits at most
 * one alert per record.
 */
module SensorAlertRule {
  import opened JsValues

  /** The `type` of an alert: "fire", "no-signal" or "exit-blocked". */
  datatype AlertKind = Fire | NoSignal | ExitBlocked

  /** The string literal the widget stores in `type`. */
  function TypeTag(kind: AlertKind): string
  {
    match kind
    case Fire => "fire"
    case NoSignal => "no-signal"
    case ExitBlocked => "exit-blocked"
  }

  /** `FireAlert`: `alert` is the message text; `lastNotification` may be `undefined`. */
  datatype Alert = Alert(deviceId: string, alert: string, kind: AlertKind, lastNotification: Option<Value>)

  /** The fixed end of each message template. */
  function Ending(kind: AlertKind): string
  {
    match kind
    case Fire => ": Fire Detected"
    case NoSignal => ": No Signal"
    case ExitBlocked => ": Exit Blocked"
  }

  /** The templates `Unit ${unit}, ${key}: Fire Detected` and the like. */
  function AlertText(unit: Option<Value>, key: string, kind: AlertKind): string
  {
    "Unit " + DisplayString(unit) + ", " + key + Ending(kind)
  }

  predicate EndsWith(text: string, suffix: string)
  {
    |suffix| <= |text| && text[|text| - |suffix|..] == suffix
  }

  /** Reads the alert kind back from the end of a message. */
  function KindOfText(text: string): Option<AlertKind>
  {
    if EndsWith(text, ": Fire Detected") then Some(Fire)
    else if EndsWith(text, ": No Signal") then Some(NoSignal)
    else if EndsWith(text, ": Exit Blocked") then Some(ExitBlocked)
    else None
  }

  /**
   * The three templates end differently, so the message text alone tells
   * which kind of alert it is, whatever the unit and the device key hold.
   */
  lemma AlertTextNamesKind(unit: Option<Value>, key: string, kind: AlertKind)
    ensures KindOfText(AlertText(unit, key, kind)) == Some(kind)
    ensures AlertText(unit, key, kind)[..5] == "Unit "
  {
    KindOfTail("Unit " + DisplayString(unit) + ", " + key, kind);
  }

  lemma KindOfTail(head: string, kind: AlertKind)
    ensures KindOfText(head + Ending(kind)) == Some(kind)
  {
    match kind
    case Fire => KindOfFireTail(head);
    case NoSignal => KindOfNoSignalTail(head);
    case ExitBlocked => KindOfExitBlockedTail(head);
  }

  lemma KindOfFireTail(head: string)
    ensures KindOfText(head + ": Fire Detected") == Some(Fire)
  {
    var text := head + ": Fire Detected";
    assert text[|text| - 15..] == ": Fire Detected";
  }

  lemma KindOfNoSignalTail(head: string)
    ensures KindOfText(head + ": No Signal") == Some(NoSignal)
  {
    var text := head + ": No Signal";
    assert text[|text| - 11..] == ": No Signal";
    // ": Fire Detected" ends in 'd', this text in 'l'
    assert text[|text| - 1] == 'l';
    NotEndsWith(text, ": Fire Detected", 1);
  }

  lemma KindOfExitBlockedTail(head: string)
    ensures KindOfText(head + ": Exit Blocked") == Some(ExitBlocked)
  {
    var text := head + ": Exit Blocked";
    assert text[|text| - 14..] == ": Exit Blocked";
    // ": Fire Detected" has 't' three from the end, this text 'k'; ": No Signal" ends in 'l'
    assert text[|text| - 3] == 'k' && text[|text| - 1] == 'd';
    NotEndsWith(text, ": Fire Detected", 3);
    NotEndsWith(text, ": No Signal", 1);
  }

  lemma LastCharsAgree(text: string, suffix: string, j: nat)
    requires EndsWith(text, suffix) && 1 <= j <= |suffix|
    ensures text[|text| - j] == suffix[|suffix| - j]
  {
    assert text[|text| - |suffix|..][|suffix| - j] == text[|text| - j];
  }

  lemma NotEndsWith(text: string, suffix: string, j: nat)
    requires 1 <= j <= |suffix| && j <= |text| && text[|text| - j] != suffix[|suffix| - j]
    ensures !EndsWith(text, suffix)
  {
    if EndsWith(text, suffix) {
      LastCharsAgree(text, suffix, j);
    }
  }

  // ---------------------------------------------------------------------
  // The priority chain

  /** The position of a clause in the chain; earlier clauses win. */
  function Rank(kind: AlertKind): nat
  {
    match kind
    case Fire => 0
    case NoSignal => 1
    case ExitBlocked => 2
  }

  /** The condition of each clause, under strict equality. */
  predicate ClauseHolds(kind: AlertKind, fields: Fields)
  {
    match kind
    case Fire => IsTrue(Get(fields, "Fire Detected")) && IsFalse(Get(fields, "Is Exit"))
    case NoSignal => IsFalse(Get(fields, "Is On"))
    case ExitBlocked => IsTrue(Get(fields, "Fire Detected")) && IsTrue(Get(fields, "Is Exit"))
  }

  /** The alert a sensor record produces once its kind is decided. */
  function MakeAlert(key: string, fields: Fields, kind: AlertKind): Alert
  {
    Alert(key, AlertText(Get(fields, "Unit"), key, kind), kind, Get(fields, "Last Notification"))
  }

  /**
   * The alert the record stored under `key` produces, if any: nothing unless
   * the record has an "Is On" property; otherwise the first clause of the
   * chain that holds decides the kind.
   */
  function SensorAlert(key: string, fields: Fields): (r: Option<Alert>)
    ensures r.Some? ==> "Is On" in fields && r.value == MakeAlert(key, fields, r.value.kind)
    ensures r.Some? ==> ClauseHolds(r.value.kind, fields)
    ensures r.Some? ==> forall k :: Rank(k) < Rank(r.value.kind) ==> !ClauseHolds(k, fields)
    ensures r.None? <==> "Is On" !in fields || forall k :: !ClauseHolds(k, fields)
  {
    if "Is On" !in fields then None
    else if IsTrue(Get(fields, "Fire Detected")) && IsFalse(Get(fields, "Is Exit")) then
      assert ClauseHolds(Fire, fields);
      Some(MakeAlert(key, fields, Fire))
    else if IsFalse(Get(fields, "Is On")) then
      assert ClauseHolds(NoSignal, fields);
      Some(MakeAlert(key, fields, NoSignal))
    else if IsTrue(Get(fields, "Fire Detected")) && IsTrue(Get(fields, "Is Exit")) then
      assert ClauseHolds(ExitBlocked, fields);
      Some(MakeAlert(key, fields, ExitBlocked))
    else
      None
  }

  /** A record with "Is On" gets the alert of the first clause that holds. */
  lemma FirstClauseDecides(key: string, fields: Fields, kind: AlertKind)
    requires "Is On" in fields && ClauseHolds(kind, fields)
    requires forall k :: Rank(k) < Rank(kind) ==> !ClauseHolds(k, fields)
    ensures SensorAlert(key, fields) == Some(MakeAlert(key, fields, kind))
  {
  }

  /** Fire and exit-blocked alerts put their record's unit into the fire-unit set. */
  predicate MarksFireUnit(kind: AlertKind)
  {
    kind == Fire || kind == ExitBlocked
  }
}
