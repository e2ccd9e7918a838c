/**
 * The two pure pieces the directory tab uses: the icon chosen for a
 * medical condition (`getPersonIcon`) and the fire highlight of a directory
 * entry (`unitsWithFire.includes(person.Unit)`).
 */
module PersonDisplay {
  import opened JsValues
  import opened SensorAlertRule
  import opened AlertAggregator

  // ---------------------------------------------------------------------
  // getPersonIcon

  function LowerChar(c: char): char
  {
    if 'A' <= c <= 'Z' then (c as int + 32) as char else c
  }

  function UpperChar(c: char): char
  {
    if 'a' <= c <= 'z' then (c as int - 32) as char else c
  }

  /** `s.toLowerCase()` on ASCII letters. */
  function ToLower(s: string): (r: string)
    ensures |r| == |s|
    ensures forall i :: 0 <= i < |s| ==> r[i] == LowerChar(s[i])
  {
    if s == [] then [] else [LowerChar(s[0])] + ToLower(s[1..])
  }

  /** The icon for a medical condition; any other condition gets the plain icon. */
  function PersonIcon(condition: string): string
  {
    match ToLower(condition)
    case "mobility" => "personmobility.png"
    case "vision" => "personvision.png"
    case "hearing" => "personhearing.png"
    case _ => "person.png"
  }

  /** Lowering twice is lowering once. */
  lemma {:induction false} ToLowerIdempotent(s: string)
    ensures ToLower(ToLower(s)) == ToLower(s)
  {
    var t := ToLower(s);
    assert |ToLower(t)| == |t|;
    forall i | 0 <= i < |t| ensures ToLower(t)[i] == t[i] {
      assert t[i] == LowerChar(s[i]);
    }
  }

  /** The icon depends only on the lower-cased condition. */
  lemma PersonIconOfLowered(condition: string)
    ensures PersonIcon(ToLower(condition)) == PersonIcon(condition)
  {
    ToLowerIdempotent(condition);
  }

  predicate IsLowerWord(w: string)
  {
    forall i :: 0 <= i < |w| ==> 'a' <= w[i] <= 'z'
  }

  /** `c` spells the lower-case word `w`, each letter in either case. */
  predicate IsCaseVariant(c: string, w: string)
  {
    |c| == |w| && forall i :: 0 <= i < |c| ==> c[i] == w[i] || c[i] == UpperChar(w[i])
  }

  lemma ToLowerIsWord(c: string, w: string)
    requires IsLowerWord(w)
    ensures ToLower(c) == w <==> IsCaseVariant(c, w)
  {
    if IsCaseVariant(c, w) {
      assert forall i :: 0 <= i < |c| ==> ToLower(c)[i] == w[i];
    }
    if ToLower(c) == w {
      forall i | 0 <= i < |c| ensures c[i] == w[i] || c[i] == UpperChar(w[i]) {
        assert LowerChar(c[i]) == w[i];
      }
    }
  }

  /**
   * The three vocabulary words are recognised in any mix of upper and lower
   * case; every other condition, the empty one included, gets "person.png".
   */
  lemma PersonIconCases(condition: string)
    ensures PersonIcon(condition) == "personmobility.png" <==> IsCaseVariant(condition, "mobility")
    ensures PersonIcon(condition) == "personvision.png" <==> IsCaseVariant(condition, "vision")
    ensures PersonIcon(condition) == "personhearing.png" <==> IsCaseVariant(condition, "hearing")
    ensures PersonIcon(condition) == "person.png" <==>
      !IsCaseVariant(condition, "mobility") && !IsCaseVariant(condition, "vision")
      && !IsCaseVariant(condition, "hearing")
  {
    ToLowerIsWord(condition, "mobility");
    ToLowerIsWord(condition, "vision");
    ToLowerIsWord(condition, "hearing");
  }

  /** Three spellings of one condition give the same icon. */
  lemma PersonIconExamples()
    ensures PersonIcon("Vision") == PersonIcon("VISION") == PersonIcon("vision") == "personvision.png"
  {
    VisionSpelling("Vision");
    VisionSpelling("VISION");
    VisionSpelling("vision");
  }

  lemma VisionSpelling(c: string)
    requires IsCaseVariant(c, "vision")
    ensures PersonIcon(c) == "personvision.png"
  {
    ToLowerIsWord(c, "vision");
    assert ToLower(c) == "vision";
  }

  /** An empty and an unknown condition get the plain icon. */
  lemma PlainIconExamples()
    ensures PersonIcon("") == PersonIcon("unknown") == "person.png"
  {
    // "unknown" has the length of "hearing" alone, and starts with another letter
    assert ToLower("unknown")[0] == 'u';
  }

  // ---------------------------------------------------------------------
  // The fire highlight of a directory entry

  /** `unitsWithFire.includes(person.Unit)`. */
  predicate IsInFireUnit(person: Fields, unitsWithFire: set<Option<Value>>)
  {
    exists u :: u in unitsWithFire && SameValueZero(u, Get(person, "Unit"))
  }

  /** A unit `includes` can find: a primitive, or `undefined`. */
  predicate ComparableUnit(unit: Option<Value>)
  {
    unit.None? || !IsComposite(unit.value)
  }

  /** The highlight is set membership, for every unit that is not an array or object. */
  lemma IsInFireUnitIsMembership(person: Fields, unitsWithFire: set<Option<Value>>)
    ensures IsInFireUnit(person, unitsWithFire) <==>
      ComparableUnit(Get(person, "Unit")) && Get(person, "Unit") in unitsWithFire
  {
    var unit := Get(person, "Unit");
    if ComparableUnit(unit) && unit in unitsWithFire {
      assert SameValueZero(unit, unit);
    }
  }

  /**
   * A directory entry is highlighted exactly when its unit is the unit of a
   * record under whose key the pass raised a "fire" or "exit-blocked" alert.
   */
  lemma HighlightMeansFireAlertInUnit(s: Snapshot, person: Fields)
    requires DistinctKeys(s) && Aggregate(s).Success?
    requires person in Aggregate(s).value.directory
    ensures var out := Aggregate(s).value;
      IsInFireUnit(person, out.fireUnits) <==>
        ComparableUnit(Get(person, "Unit"))
        && exists j :: 0 <= j < |s| && RaisedFireAlert(out.alerts, s[j].0) && UnitOf(s[j]) == Get(person, "Unit")
  {
    IsInFireUnitIsMembership(person, Aggregate(s).value.fireUnits);
    FireUnitsAreUnitsOfFireAlerts(s);
  }
}
