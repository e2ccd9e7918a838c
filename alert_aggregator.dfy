/**
 * The classification pass of `fetchData`: one walk over the entries of the
 * device-status snapshot that collects the alerts, the occupant directory and
 * the units with a fire condition.
 *
 * `Aggregate` says what the pass computes, entry by entry and independently
 * of the loop; `ClassifySnapshot` is the loop itself, proved equal to it.
 */
module AlertAggregator {
  import opened JsValues
  import opened SensorAlertRule

  /** What a pass can end in: its results, or the key of the entry that threw. */
  datatype Result<T, E> = Success(value: T) | Failure(error: E)

  /** `Object.entries(data)`: each key with its record, in iteration order. */
  type Snapshot = seq<(string, Value)>

  /** The three collections the pass hands to the component state. */
  datatype Outcome = Outcome(alerts: seq<Alert>, directory: seq<Fields>, fireUnits: set<Option<Value>>)

  /**
   * `"Name" in status` raises a TypeError when `status` is neither an object
   * nor an array; the exception ends the whole pass.
   */
  predicate Throws(v: Value)
  {
    !IsComposite(v)
  }

  /**
   * The properties the `in` tests and the lookups see. An array has none of
   * the names tested (they are neither indices nor "length").
   */
  function FieldsOf(v: Value): Fields
  {
    if v.VObject? then v.fields else map[]
  }

  /** The person test: all of "Name", "DOB" and "Medical Conditions" are present. */
  predicate IsPerson(fields: Fields)
  {
    "Name" in fields && "DOB" in fields && "Medical Conditions" in fields
  }

  function EntryAlert(e: (string, Value)): Option<Alert>
  {
    SensorAlert(e.0, FieldsOf(e.1))
  }

  /** The entry raised a fire or exit-blocked alert, so its unit is a fire unit. */
  predicate FiresUnit(e: (string, Value))
  {
    EntryAlert(e).Some? && MarksFireUnit(EntryAlert(e).value.kind)
  }

  /** `status["Unit"]`, `None` for `undefined`. */
  function UnitOf(e: (string, Value)): Option<Value>
  {
    Get(FieldsOf(e.1), "Unit")
  }

  function OptionToSeq<T>(o: Option<T>): seq<T>
  {
    if o.Some? then [o.value] else []
  }

  // ---------------------------------------------------------------------
  // What the pass computes

  /** The alerts of the entries, in entry order. */
  function Alerts(s: Snapshot): seq<Alert>
  {
    if s == [] then [] else OptionToSeq(EntryAlert(s[0])) + Alerts(s[1..])
  }

  /** The person records, unchanged and in entry order. */
  function Directory(s: Snapshot): seq<Fields>
  {
    if s == [] then []
    else (if IsPerson(FieldsOf(s[0].1)) then [FieldsOf(s[0].1)] else []) + Directory(s[1..])
  }

  /** The units of the entries that raised a fire or exit-blocked alert. */
  function FireUnits(s: Snapshot): set<Option<Value>>
  {
    set i | 0 <= i < |s| && FiresUnit(s[i]) :: UnitOf(s[i])
  }

  /** The key of the first entry that makes the pass throw, if any. */
  function ThrowKey(s: Snapshot): (r: Option<string>)
    ensures r.None? <==> forall j :: 0 <= j < |s| ==> !Throws(s[j].1)
    ensures r.Some? ==> exists j :: 0 <= j < |s| && s[j].0 == r.value && Throws(s[j].1)
                                    && forall l :: 0 <= l < j ==> !Throws(s[l].1)
  {
    if s == [] then None
    else if Throws(s[0].1) then Some(s[0].0)
    else
      var r := ThrowKey(s[1..]);
      assert forall j :: 1 <= j < |s| ==> s[j] == s[1..][j - 1];
      if r.Some? then
        var j :| 0 <= j < |s[1..]| && s[1..][j].0 == r.value && Throws(s[1..][j].1)
                 && forall l :: 0 <= l < j ==> !Throws(s[1..][l].1);
        assert s[j + 1].0 == r.value && Throws(s[j + 1].1);
        assert forall l :: 0 <= l < j + 1 ==> !Throws(s[l].1) by {
          forall l | 0 <= l < j + 1 ensures !Throws(s[l].1) {
            if l > 0 { assert s[l] == s[1..][l - 1]; }
          }
        }
        r
      else
        r
  }

  /** The outcome of the pass over a snapshot. */
  function Aggregate(s: Snapshot): Result<Outcome, string>
  {
    match ThrowKey(s)
    case Some(key) => Failure(key)
    case None => Success(Outcome(Alerts(s), Directory(s), FireUnits(s)))
  }

  /**
   * Running the pass over `a` and then over `b`: the first exception wins,
   * otherwise the lists are concatenated and the sets joined.
   */
  function Then(ra: Result<Outcome, string>, rb: Result<Outcome, string>): Result<Outcome, string>
  {
    if ra.Failure? then ra
    else if rb.Failure? then rb
    else Success(Outcome(ra.value.alerts + rb.value.alerts,
                         ra.value.directory + rb.value.directory,
                         ra.value.fireUnits + rb.value.fireUnits))
  }

  // ---------------------------------------------------------------------
  // The pass over a concatenation is the passes in turn

  lemma {:induction false} AlertsAppend(a: Snapshot, b: Snapshot)
    ensures Alerts(a + b) == Alerts(a) + Alerts(b)
    decreases |a|
  {
    if a != [] {
      assert (a + b)[1..] == a[1..] + b;
      AlertsAppend(a[1..], b);
    } else {
      assert a + b == b;
    }
  }

  lemma {:induction false} DirectoryAppend(a: Snapshot, b: Snapshot)
    ensures Directory(a + b) == Directory(a) + Directory(b)
    decreases |a|
  {
    if a != [] {
      assert (a + b)[1..] == a[1..] + b;
      DirectoryAppend(a[1..], b);
    } else {
      assert a + b == b;
    }
  }

  lemma FireUnitsAppend(a: Snapshot, b: Snapshot)
    ensures FireUnits(a + b) == FireUnits(a) + FireUnits(b)
  {
    var s := a + b;
    forall u | u in FireUnits(s) ensures u in FireUnits(a) + FireUnits(b) {
      var i :| 0 <= i < |s| && FiresUnit(s[i]) && UnitOf(s[i]) == u;
      if i < |a| {
        assert s[i] == a[i];
      } else {
        assert s[i] == b[i - |a|];
      }
    }
    forall u | u in FireUnits(b) ensures u in FireUnits(s) {
      var i :| 0 <= i < |b| && FiresUnit(b[i]) && UnitOf(b[i]) == u;
      assert s[|a| + i] == b[i];
    }
    forall u | u in FireUnits(a) ensures u in FireUnits(s) {
      var i :| 0 <= i < |a| && FiresUnit(a[i]) && UnitOf(a[i]) == u;
      assert s[i] == a[i];
    }
  }

  lemma {:induction false} ThrowKeyAppend(a: Snapshot, b: Snapshot)
    ensures ThrowKey(a + b) == if ThrowKey(a).Some? then ThrowKey(a) else ThrowKey(b)
    decreases |a|
  {
    if a != [] {
      assert (a + b)[1..] == a[1..] + b;
      assert (a + b)[0] == a[0];
      ThrowKeyAppend(a[1..], b);
    } else {
      assert a + b == b;
    }
  }

  /**
   * Order preservation: the pass over `a + b` is the pass over `a` followed by
   * the pass over `b`. No entry's contribution moves past another's.
   */
  lemma AggregateAppend(a: Snapshot, b: Snapshot)
    ensures Aggregate(a + b) == Then(Aggregate(a), Aggregate(b))
  {
    ThrowKeyAppend(a, b);
    AlertsAppend(a, b);
    DirectoryAppend(a, b);
    FireUnitsAppend(a, b);
  }

  /** What a single entry contributes. */
  lemma AggregateSingle(e: (string, Value))
    ensures Aggregate([e]) ==
      if Throws(e.1) then Failure(e.0)
      else Success(Outcome(OptionToSeq(EntryAlert(e)),
                           if IsPerson(FieldsOf(e.1)) then [FieldsOf(e.1)] else [],
                           if FiresUnit(e) then {UnitOf(e)} else {}))
  {
    var s := [e];
    assert s[1..] == [];
    assert ThrowKey(s) == if Throws(e.1) then Some(e.0) else ThrowKey([]);
    assert Alerts(s) == OptionToSeq(EntryAlert(e)) + Alerts([]);
    assert Directory(s) == (if IsPerson(FieldsOf(e.1)) then [FieldsOf(e.1)] else []) + Directory([]);
    if FiresUnit(e) {
      assert UnitOf(s[0]) in FireUnits(s);
    }
    assert FireUnits(s) == if FiresUnit(e) then {UnitOf(e)} else {};
    if !Throws(e.1) {
      assert ThrowKey(s) == None;
      assert Aggregate(s) == Success(Outcome(Alerts(s), Directory(s), FireUnits(s)));
      assert Alerts(s) == OptionToSeq(EntryAlert(e));
      assert Directory(s) == if IsPerson(FieldsOf(e.1)) then [FieldsOf(e.1)] else [];
    }
  }

  /** The pass over no entries yields three empty collections. */
  lemma AggregateEmpty()
    ensures Aggregate([]) == Success(Outcome([], [], {}))
  {
    assert FireUnits([]) == {};
  }

  /** One more entry that does not throw adds its own contribution at the end. */
  lemma AggregateStep(prefix: Snapshot, e: (string, Value), o: Outcome)
    requires Aggregate(prefix) == Success(o) && !Throws(e.1)
    ensures Aggregate(prefix + [e]) ==
      Success(Outcome(o.alerts + OptionToSeq(EntryAlert(e)),
                      o.directory + (if IsPerson(FieldsOf(e.1)) then [FieldsOf(e.1)] else []),
                      o.fireUnits + (if FiresUnit(e) then {UnitOf(e)} else {})))
  {
    AggregateAppend(prefix, [e]);
    AggregateSingle(e);
  }

  /** An entry that throws after entries that do not decides the outcome of the pass. */
  lemma AggregateThrows(s: Snapshot, i: nat)
    requires i < |s| && Throws(s[i].1) && Aggregate(s[..i]).Success?
    ensures Aggregate(s) == Failure(s[i].0)
  {
    SplitAt(s, i);
    AggregateAppend(s[..i], [s[i]] + s[i + 1..]);
    AggregateAppend([s[i]], s[i + 1..]);
    AggregateSingle(s[i]);
  }

  // ---------------------------------------------------------------------
  // The loop of `fetchData`

  /**
   * The loop over `Object.entries(data)`: person records are pushed onto
   * `people`; a record with "Is On" goes through the priority chain, pushes at
   * most one alert and, for fire and exit-blocked, adds its unit to
   * `fireUnits`. A non-object entry throws and the pass yields no state.
   */
  method ClassifySnapshot(data: Snapshot) returns (r: Result<Outcome, string>)
    ensures r == Aggregate(data)
  {
    var alerts: seq<Alert> := [];
    var people: seq<Fields> := [];
    var fireUnits: set<Option<Value>> := {};
    assert data[..0] == [];
    AggregateEmpty();
    for i := 0 to |data|
      invariant Aggregate(data[..i]) == Success(Outcome(alerts, people, fireUnits))
    {
      var (key, status) := data[i];
      TakeOneMore(data, i);
      if Throws(status) {
        // `"Name" in status` raises a TypeError
        AggregateThrows(data, i);
        return Failure(key);
      }
      ghost var before := Outcome(alerts, people, fireUnits);
      var fields := FieldsOf(status);
      if "Name" in fields && "DOB" in fields && "Medical Conditions" in fields {
        people := people + [fields];
      }
      if "Is On" in fields {
        var unit := Get(fields, "Unit");
        var last := Get(fields, "Last Notification");
        if IsTrue(Get(fields, "Fire Detected")) && IsFalse(Get(fields, "Is Exit")) {
          alerts := alerts + [Alert(key, AlertText(unit, key, Fire), Fire, last)];
          fireUnits := fireUnits + {unit};
        } else if IsFalse(Get(fields, "Is On")) {
          alerts := alerts + [Alert(key, AlertText(unit, key, NoSignal), NoSignal, last)];
        } else if IsTrue(Get(fields, "Fire Detected")) && IsTrue(Get(fields, "Is Exit")) {
          alerts := alerts + [Alert(key, AlertText(unit, key, ExitBlocked), ExitBlocked, last)];
          fireUnits := fireUnits + {unit};
        }
      }
      assert alerts == before.alerts + OptionToSeq(EntryAlert(data[i]));
      assert people == before.directory + (if IsPerson(fields) then [fields] else []);
      assert fireUnits == before.fireUnits + (if FiresUnit(data[i]) then {UnitOf(data[i])} else {});
      AggregateStep(data[..i], data[i], before);
    }
    TakeAll(data);
    r := Success(Outcome(alerts, people, fireUnits));
  }
  // ---------------------------------------------------------------------
  // What each record contributes

  /** Property names of a parsed object are distinct, so are the keys of its entries. */
  predicate DistinctKeys(s: Snapshot)
  {
    forall i, j :: 0 <= i < j < |s| ==> s[i].0 != s[j].0
  }

  /** The alerts whose `deviceId` is `key`, in order. */
  function AlertsFor(alerts: seq<Alert>, key: string): seq<Alert>
  {
    if alerts == [] then []
    else (if alerts[0].deviceId == key then [alerts[0]] else []) + AlertsFor(alerts[1..], key)
  }

  lemma {:induction false} AlertsForMembers(alerts: seq<Alert>, key: string)
    ensures forall a :: a in AlertsFor(alerts, key) <==> a in alerts && a.deviceId == key
    decreases |alerts|
  {
    if alerts != [] {
      AlertsForMembers(alerts[1..], key);
      assert alerts == [alerts[0]] + alerts[1..];
    }
  }

  lemma {:induction false} AlertsForAppend(x: seq<Alert>, y: seq<Alert>, key: string)
    ensures AlertsFor(x + y, key) == AlertsFor(x, key) + AlertsFor(y, key)
    decreases |x|
  {
    if x != [] {
      assert (x + y)[1..] == x[1..] + y;
      AlertsForAppend(x[1..], y, key);
    } else {
      assert x + y == y;
    }
  }

  /** An entry's alert, if any, carries the entry's key as its `deviceId`. */
  lemma {:induction false} AlertsForAbsentKey(s: Snapshot, key: string)
    requires forall j :: 0 <= j < |s| ==> s[j].0 != key
    ensures AlertsFor(Alerts(s), key) == []
    decreases |s|
  {
    if s != [] {
      assert s[0].0 != key;
      AlertsForAppend(OptionToSeq(EntryAlert(s[0])), Alerts(s[1..]), key);
      AlertsForAbsentKey(s[1..], key);
    }
  }

  /**
   * The alerts the pass raises under the key of entry `i` are exactly what
   * the rule gives for that record: at most one, and the person test has no
   * say in it.
   */
  lemma AlertsOfEntry(s: Snapshot, i: nat)
    requires DistinctKeys(s) && i < |s|
    ensures AlertsFor(Alerts(s), s[i].0) == OptionToSeq(SensorAlert(s[i].0, FieldsOf(s[i].1)))
  {
    var key := s[i].0;
    var pre, post := s[..i], s[i + 1..];
    assert forall j :: 0 <= j < |pre| ==> pre[j].0 != key by {
      forall j | 0 <= j < |pre| ensures pre[j].0 != key {
        assert pre[j] == s[j];
      }
    }
    assert forall j :: 0 <= j < |post| ==> post[j].0 != key by {
      forall j | 0 <= j < |post| ensures post[j].0 != key {
        assert post[j] == s[i + 1 + j];
      }
    }
    AlertsForAbsentKey(pre, key);
    AlertsForAbsentKey(post, key);
    AlertsOfOwnEntry(s[i]);
    AlertsSplit(s, i);
    AlertsForAppend(Alerts(pre), Alerts([s[i]]) + Alerts(post), key);
    AlertsForAppend(Alerts([s[i]]), Alerts(post), key);
  }

  lemma AlertsSplit(s: Snapshot, i: nat)
    requires i < |s|
    ensures Alerts(s) == Alerts(s[..i]) + (Alerts([s[i]]) + Alerts(s[i + 1..]))
  {
    SplitAt(s, i);
    AlertsAppend(s[..i], [s[i]] + s[i + 1..]);
    AlertsAppend([s[i]], s[i + 1..]);
  }

  lemma TakeOneMore<T>(s: seq<T>, i: nat)
    requires i < |s|
    ensures s[..i + 1] == s[..i] + [s[i]]
  {
  }

  lemma TakeAll<T>(s: seq<T>)
    ensures s[..|s|] == s
  {
  }

  /** A sequence is its part before `i`, its element at `i` and its part after. */
  lemma SplitAt<T>(s: seq<T>, i: nat)
    requires i < |s|
    ensures s == s[..i] + ([s[i]] + s[i + 1..])
  {
  }

  /** A single entry's alerts all carry its key. */
  lemma AlertsOfOwnEntry(e: (string, Value))
    ensures AlertsFor(Alerts([e]), e.0) == OptionToSeq(EntryAlert(e))
  {
    assert [e][1..] == [];
    var own := OptionToSeq(EntryAlert(e));
    assert Alerts([e]) == own + Alerts([]);
    if own != [] {
      assert own[1..] == [];
      assert AlertsFor(own, e.0) == own + AlertsFor([], e.0);
    }
  }

  /**
   * A fire: exactly one alert under the record's key, of type "fire", with
   * the text `Unit ${unit}, ${key}: Fire Detected` and the record's last
   * notification, whatever "Is On" holds (the fire clause comes first); the
   * record's unit is a fire unit.
   */
  lemma FireRecordRaisesFireAlert(s: Snapshot, i: nat)
    requires DistinctKeys(s) && i < |s| && Aggregate(s).Success?
    requires "Is On" in FieldsOf(s[i].1)
    requires IsTrue(Get(FieldsOf(s[i].1), "Fire Detected")) && IsFalse(Get(FieldsOf(s[i].1), "Is Exit"))
    ensures var key, f := s[i].0, FieldsOf(s[i].1);
      AlertsFor(Aggregate(s).value.alerts, key)
        == [Alert(key, "Unit " + DisplayString(Get(f, "Unit")) + ", " + key + ": Fire Detected",
                  Fire, Get(f, "Last Notification"))]
    ensures Get(FieldsOf(s[i].1), "Unit") in Aggregate(s).value.fireUnits
  {
    AlertsOfEntry(s, i);
    assert UnitOf(s[i]) in FireUnits(s);
  }

  /**
   * No signal: when the fire clause fails and "Is On" is `false`, exactly one
   * "no-signal" alert, and the record adds nothing to the fire units (they are
   * what the other entries give).
   */
  lemma OffRecordRaisesNoSignalAlert(s: Snapshot, i: nat)
    requires DistinctKeys(s) && i < |s| && Aggregate(s).Success?
    requires "Is On" in FieldsOf(s[i].1) && IsFalse(Get(FieldsOf(s[i].1), "Is On"))
    requires !(IsTrue(Get(FieldsOf(s[i].1), "Fire Detected")) && IsFalse(Get(FieldsOf(s[i].1), "Is Exit")))
    ensures var key, f := s[i].0, FieldsOf(s[i].1);
      AlertsFor(Aggregate(s).value.alerts, key)
        == [Alert(key, "Unit " + DisplayString(Get(f, "Unit")) + ", " + key + ": No Signal",
                  NoSignal, Get(f, "Last Notification"))]
    ensures Aggregate(s).value.fireUnits == FireUnits(s[..i] + s[i + 1..])
  {
    AlertsOfEntry(s, i);
    FireUnitsWithout(s, i);
  }

  /**
   * Exit blocked: a fire at an exit on a sensor that is not off gives exactly
   * one "exit-blocked" alert, and the record's unit is a fire unit.
   */
  lemma BlockedExitRaisesExitBlockedAlert(s: Snapshot, i: nat)
    requires DistinctKeys(s) && i < |s| && Aggregate(s).Success?
    requires "Is On" in FieldsOf(s[i].1) && !IsFalse(Get(FieldsOf(s[i].1), "Is On"))
    requires IsTrue(Get(FieldsOf(s[i].1), "Fire Detected")) && IsTrue(Get(FieldsOf(s[i].1), "Is Exit"))
    ensures var key, f := s[i].0, FieldsOf(s[i].1);
      AlertsFor(Aggregate(s).value.alerts, key)
        == [Alert(key, "Unit " + DisplayString(Get(f, "Unit")) + ", " + key + ": Exit Blocked",
                  ExitBlocked, Get(f, "Last Notification"))]
    ensures Get(FieldsOf(s[i].1), "Unit") in Aggregate(s).value.fireUnits
  {
    AlertsOfEntry(s, i);
    assert UnitOf(s[i]) in FireUnits(s);
  }

  predicate IsBoolean(x: Option<Value>)
  {
    x.Some? && x.value.VBool?
  }

  /**
   * No alert: a record without "Is On", or a sensor that is not off whose
   * "Fire Detected" or "Is Exit" is missing or not a boolean, raises nothing
   * and adds no fire unit.
   */
  lemma UndecidedRecordRaisesNothing(s: Snapshot, i: nat)
    requires DistinctKeys(s) && i < |s| && Aggregate(s).Success?
    requires var f := FieldsOf(s[i].1);
      "Is On" !in f
      || (!IsFalse(Get(f, "Is On"))
          && (!IsBoolean(Get(f, "Fire Detected")) || !IsBoolean(Get(f, "Is Exit"))))
    ensures AlertsFor(Aggregate(s).value.alerts, s[i].0) == []
    ensures Aggregate(s).value.fireUnits == FireUnits(s[..i] + s[i + 1..])
  {
    AlertsOfEntry(s, i);
    FireUnitsWithout(s, i);
  }

  /** The fire units are those of the other entries, plus this one's if it fires. */
  lemma FireUnitsWithout(s: Snapshot, i: nat)
    requires i < |s|
    ensures FireUnits(s) == FireUnits(s[..i] + s[i + 1..]) + (if FiresUnit(s[i]) then {UnitOf(s[i])} else {})
  {
    SplitAt(s, i);
    FireUnitsAppend(s[..i], [s[i]] + s[i + 1..]);
    FireUnitsAppend([s[i]], s[i + 1..]);
    FireUnitsAppend(s[..i], s[i + 1..]);
    FireUnitsSingle(s[i]);
  }

  lemma FireUnitsSingle(e: (string, Value))
    ensures FireUnits([e]) == if FiresUnit(e) then {UnitOf(e)} else {}
  {
    var s := [e];
    forall u | u in FireUnits(s) ensures FiresUnit(e) && u == UnitOf(e) {
      var i :| 0 <= i < |s| && FiresUnit(s[i]) && UnitOf(s[i]) == u;
      assert s[i] == e;
    }
    if FiresUnit(e) {
      assert FiresUnit(s[0]) && UnitOf(s[0]) in FireUnits(s);
    }
  }

  /**
   * A person record lands in the directory unchanged, after the person
   * records before it and ahead of those after it.
   */
  lemma PersonRecordJoinsDirectory(s: Snapshot, i: nat)
    requires i < |s| && Aggregate(s).Success? && IsPerson(FieldsOf(s[i].1))
    ensures Aggregate(s).value.directory == Directory(s[..i]) + [s[i].1.fields] + Directory(s[i + 1..])
  {
    SplitAt(s, i);
    DirectoryAppend(s[..i], [s[i]] + s[i + 1..]);
    DirectoryAppend([s[i]], s[i + 1..]);
    assert [s[i]][1..] == [];
    assert Directory([s[i]]) == [FieldsOf(s[i].1)] + Directory([]);
  }

  /**
   * A record that is neither a person nor a sensor (and does not throw)
   * changes nothing: the pass gives the same outcome without it.
   */
  lemma UnclassifiedRecordIsDropped(s: Snapshot, i: nat)
    requires i < |s| && !Throws(s[i].1)
    requires !IsPerson(FieldsOf(s[i].1)) && "Is On" !in FieldsOf(s[i].1)
    ensures Aggregate(s) == Aggregate(s[..i] + s[i + 1..])
  {
    var pre, post := s[..i], s[i + 1..];
    SplitAt(s, i);
    AggregateAppend(pre, [s[i]] + post);
    AggregateAppend([s[i]], post);
    AggregateAppend(pre, post);
    AggregateSingle(s[i]);
    assert Aggregate([s[i]]) == Success(Outcome([], [], {}));
    ThenUnit(Aggregate(post));
  }

  /** Passing over nothing first leaves a pass unchanged. */
  lemma ThenUnit(r: Result<Outcome, string>)
    ensures Then(Success(Outcome([], [], {})), r) == r
  {
    if r.Success? {
      assert [] + r.value.alerts == r.value.alerts;
      assert [] + r.value.directory == r.value.directory;
      assert {} + r.value.fireUnits == r.value.fireUnits;
    }
  }

  /** Some alert under `key` is a fire or exit-blocked alert. */
  predicate RaisedFireAlert(alerts: seq<Alert>, key: string)
  {
    exists a :: a in alerts && a.deviceId == key && MarksFireUnit(a.kind)
  }

  /**
   * The fire units are exactly the units of the records under whose key the
   * pass raised a "fire" or "exit-blocked" alert.
   */
  lemma FireUnitsAreUnitsOfFireAlerts(s: Snapshot)
    requires DistinctKeys(s) && Aggregate(s).Success?
    ensures var out := Aggregate(s).value;
      forall u :: u in out.fireUnits <==>
        exists j :: 0 <= j < |s| && RaisedFireAlert(out.alerts, s[j].0) && UnitOf(s[j]) == u
  {
    var out := Aggregate(s).value;
    forall u | u in out.fireUnits
      ensures exists j :: 0 <= j < |s| && RaisedFireAlert(out.alerts, s[j].0) && UnitOf(s[j]) == u
    {
      var j :| 0 <= j < |s| && FiresUnit(s[j]) && UnitOf(s[j]) == u;
      FiringEntryRaisesFireAlert(s, j);
    }
    forall u, j | 0 <= j < |s| && RaisedFireAlert(out.alerts, s[j].0) && UnitOf(s[j]) == u
      ensures u in out.fireUnits
    {
      FireAlertComesFromFiringEntry(s, j);
    }
  }

  lemma FiringEntryRaisesFireAlert(s: Snapshot, j: nat)
    requires DistinctKeys(s) && Aggregate(s).Success? && j < |s| && FiresUnit(s[j])
    ensures RaisedFireAlert(Aggregate(s).value.alerts, s[j].0)
  {
    var out := Aggregate(s).value;
    AlertsOfEntry(s, j);
    AlertsForMembers(out.alerts, s[j].0);
    var a := EntryAlert(s[j]).value;
    assert a in AlertsFor(out.alerts, s[j].0);
  }

  lemma FireAlertComesFromFiringEntry(s: Snapshot, j: nat)
    requires DistinctKeys(s) && Aggregate(s).Success? && j < |s|
    requires RaisedFireAlert(Aggregate(s).value.alerts, s[j].0)
    ensures FiresUnit(s[j]) && UnitOf(s[j]) in Aggregate(s).value.fireUnits
  {
    var out := Aggregate(s).value;
    var a :| a in out.alerts && a.deviceId == s[j].0 && MarksFireUnit(a.kind);
    AlertsOfEntry(s, j);
    AlertsForMembers(out.alerts, s[j].0);
    assert a in OptionToSeq(EntryAlert(s[j]));
  }

  // ---------------------------------------------------------------------
  // Worked examples

  function ExampleSensor(): Fields
  {
    map["Unit" := VNum(5), "Is On" := VBool(true), "Fire Detected" := VBool(true), "Is Exit" := VBool(false)]
  }

  function ExampleOccupant(): Fields
  {
    map["Name" := VStr("Jane"), "DOB" := VStr("1990-01-01"), "Unit" := VNum(5), "Medical Conditions" := VStr("Mobility")]
  }

  /** A fire sensor and an occupant of the same unit. */
  lemma ExampleFireAndOccupant()
    ensures Aggregate([("d1", VObject(ExampleSensor())), ("p1", VObject(ExampleOccupant()))])
      == Success(Outcome([Alert("d1", "Unit 5, d1: Fire Detected", Fire, None)], [ExampleOccupant()], {Some(VNum(5))}))
  {
    var fire := Alert("d1", "Unit 5, d1: Fire Detected", Fire, None);
    var o1 := Outcome([fire], [], {Some(VNum(5))});
    var o2 := Outcome([], [ExampleOccupant()], {});
    ExampleSensorAlone();
    ExampleOccupantAlone();
    AggregatePair(("d1", VObject(ExampleSensor())), ("p1", VObject(ExampleOccupant())), o1, o2);
    assert o1.alerts + o2.alerts == [fire];
    assert o1.directory + o2.directory == [ExampleOccupant()];
    assert o1.fireUnits + o2.fireUnits == {Some(VNum(5))};
  }

  /** Two entries that each pass contribute one after the other. */
  lemma AggregatePair(e1: (string, Value), e2: (string, Value), o1: Outcome, o2: Outcome)
    requires Aggregate([e1]) == Success(o1) && Aggregate([e2]) == Success(o2)
    ensures Aggregate([e1, e2])
      == Success(Outcome(o1.alerts + o2.alerts, o1.directory + o2.directory, o1.fireUnits + o2.fireUnits))
  {
    TwoEntries(e1, e2);
    AggregateAppend([e1], [e2]);
    ThenOfSuccesses(o1, o2);
  }

  lemma TwoEntries<T>(x: T, y: T)
    ensures [x, y] == [x] + [y]
  {
  }

  lemma ThenOfSuccesses(o1: Outcome, o2: Outcome)
    ensures Then(Success(o1), Success(o2))
      == Success(Outcome(o1.alerts + o2.alerts, o1.directory + o2.directory, o1.fireUnits + o2.fireUnits))
  {
  }

  lemma ExampleSensorAlone()
    ensures Aggregate([("d1", VObject(ExampleSensor()))])
      == Success(Outcome([Alert("d1", "Unit 5, d1: Fire Detected", Fire, None)], [], {Some(VNum(5))}))
  {
    var e1 := ("d1", VObject(ExampleSensor()));
    ExampleSensorRule(ExampleSensor());
    assert !IsPerson(ExampleSensor()) && UnitOf(e1) == Some(VNum(5));
    AggregateSingle(e1);
  }

  lemma ExampleSensorRule(d1: Fields)
    requires d1 == ExampleSensor()
    ensures SensorAlert("d1", d1) == Some(Alert("d1", "Unit 5, d1: Fire Detected", Fire, None))
  {
    ExampleSensorFields(d1);
    OneDigitUnitAlert("d1", d1, Fire, 5, "5", "Unit 5, d1: Fire Detected");
  }

  lemma ExampleSensorFields(d1: Fields)
    requires d1 == ExampleSensor()
    ensures "Is On" in d1 && ClauseHolds(Fire, d1)
    ensures Get(d1, "Unit") == Some(VNum(5)) && Get(d1, "Last Notification") == None
  {
  }

  /** The alert of a record whose unit is a one-digit number and whose kind is decided. */
  lemma OneDigitUnitAlert(key: string, f: Fields, kind: AlertKind, n: nat, digits: string, text: string)
    requires "Is On" in f && ClauseHolds(kind, f) && forall k :: Rank(k) < Rank(kind) ==> !ClauseHolds(k, f)
    requires n < 10 && Get(f, "Unit") == Some(VNum(n)) && digits == [DigitChar(n)]
    requires text == "Unit " + digits + ", " + key + Ending(kind)
    ensures SensorAlert(key, f) == Some(Alert(key, text, kind, Get(f, "Last Notification")))
  {
    ExampleText(n, key, kind, digits, text);
    FirstClauseDecides(key, f, kind);
  }

  /** The message text for a numeric unit of one digit. */
  lemma ExampleText(n: nat, key: string, kind: AlertKind, digits: string, text: string)
    requires n < 10 && digits == [DigitChar(n)]
    requires text == "Unit " + digits + ", " + key + Ending(kind)
    ensures AlertText(Some(VNum(n)), key, kind) == text
  {
  }

  lemma ExampleOccupantAlone()
    ensures Aggregate([("p1", VObject(ExampleOccupant()))]) == Success(Outcome([], [ExampleOccupant()], {}))
  {
    var e2 := ("p1", VObject(ExampleOccupant()));
    assert "Is On" !in ExampleOccupant();
    assert EntryAlert(e2) == None;
    AggregateSingle(e2);
  }

  /** A fire at an exit on a sensor that is off: the no-signal clause comes first. */
  lemma ExampleOffSensor()
    ensures
      var s2 := map["Unit" := VNum(2), "Is On" := VBool(false), "Fire Detected" := VBool(true),
                    "Is Exit" := VBool(true), "Last Notification" := VStr("09:00")];
      Aggregate([("s2", VObject(s2))])
        == Success(Outcome([Alert("s2", "Unit 2, s2: No Signal", NoSignal, Some(VStr("09:00")))], [], {}))
  {
    var s2 := map["Unit" := VNum(2), "Is On" := VBool(false), "Fire Detected" := VBool(true),
                  "Is Exit" := VBool(true), "Last Notification" := VStr("09:00")];
    ExampleOffSensorRule(s2);
    assert "Name" !in s2;
    AggregateSingle(("s2", VObject(s2)));
  }

  lemma ExampleOffSensorRule(s2: Fields)
    requires s2 == map["Unit" := VNum(2), "Is On" := VBool(false), "Fire Detected" := VBool(true),
                       "Is Exit" := VBool(true), "Last Notification" := VStr("09:00")]
    ensures SensorAlert("s2", s2) == Some(Alert("s2", "Unit 2, s2: No Signal", NoSignal, Some(VStr("09:00"))))
  {
    ExampleOffSensorFields(s2);
    OneDigitUnitAlert("s2", s2, NoSignal, 2, "2", "Unit 2, s2: No Signal");
  }

  lemma ExampleOffSensorFields(s2: Fields)
    requires s2 == map["Unit" := VNum(2), "Is On" := VBool(false), "Fire Detected" := VBool(true),
                       "Is Exit" := VBool(true), "Last Notification" := VStr("09:00")]
    ensures "Is On" in s2 && !ClauseHolds(Fire, s2) && ClauseHolds(NoSignal, s2)
    ensures Get(s2, "Unit") == Some(VNum(2)) && Get(s2, "Last Notification") == Some(VStr("09:00"))
  {
  }

  /** A bare number among the records makes the whole pass throw at its key. */
  lemma ExampleBareNumber()
    ensures Aggregate([("x", VObject(map[])), ("n", VNum(3)), ("y", VNull)]) == Failure("n")
  {
    var c := [("x", VObject(map[])), ("n", VNum(3)), ("y", VNull)];
    AggregateEmpty();
    TakeOneMore(c, 0);
    AggregateStep([], c[0], Outcome([], [], {}));
    AggregateThrows(c, 1);
  }
}
