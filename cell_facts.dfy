/**
 * Properties of the per-cell rules of `load_and_clean`: the violation
 * classifier `map_violation`, the boolean token table, the age coercion and
 * the categorical default.
 */
module CellFacts {
  import opened Values
  import opened Text
  import opened Cleaning

  /** A cell on which `map_violation` raises: present, but not a string. */
  predicate NonText(v: Value) {
    !v.Null? && !v.Str?
  }

  // -----------------------------------------------------------------------
  // map_violation

  /** Text made only of digits, minus signs and colons, as `str()` renders
      integers, dates and times. */
  predicate NumericText(s: string) {
    forall k :: 0 <= k < |s| ==> IsDigit(s[k]) || s[k] == '-' || s[k] == ':'
  }

  lemma NumericConcat(a: string, b: string)
    requires NumericText(a) && NumericText(b)
    ensures NumericText(a + b)
  {
  }

  lemma PaddedIsNumeric(n: int, width: nat)
    ensures NumericText(Padded(n, width))
  {
    if n < 0 {
      assert IntegerText(n) == "-" + DecimalText(-n);
    }
  }

  /** No keyword occurs in such text, so no class is found. */
  lemma NumericTextHasNoCategory(s: string)
    requires NumericText(s)
    ensures Category(Lower(s)) == None
  {
    assert Lower(s) == s;
    NotContainsFirstChar(s, "speed");
    NotContainsFirstChar(s, "dui");
    NotContainsFirstChar(s, "drunk");
    NotContainsFirstChar(s, "seat");
    NotContainsFirstChar(s, "equipment");
  }

  lemma LowerTrue() ensures Lower("True") == "true" {}
  lemma LowerFalse() ensures Lower("False") == "false" {}

  lemma TrueHasNoCategory() ensures Category("true") == None {
    NotContainsFirstChar("true", "speed");
    NotContainsFirstChar("true", "dui");
    NotContainsFirstChar("true", "drunk");
    NotContainsFirstChar("true", "seat");
    NotContainsLonger("true", "equipment");
  }

  lemma FalseNoSpeed() ensures !Contains("false", "speed") {
    assert "false"[1..] == "alse";
    NotContainsLonger("alse", "speed");
  }

  lemma FalseNoSeat() ensures !Contains("false", "seat") {
    assert "false"[1..] == "alse" && "alse"[1..] == "lse";
    NotContainsLonger("lse", "seat");
  }

  lemma FalseHasNoCategory() ensures Category("false") == None {
    FalseNoSpeed();
    NotContainsFirstChar("false", "dui");
    NotContainsFirstChar("false", "drunk");
    FalseNoSeat();
    NotContainsLonger("false", "equipment");
  }

  /** `str()` of a boolean, lower-cased, names no class. */
  lemma BoolTextHasNoCategory()
    ensures Category(Lower("True")) == None && Category(Lower("False")) == None
  {
    LowerTrue();
    LowerFalse();
    TrueHasNoCategory();
    FalseHasNoCategory();
  }

  /** `map_violation` raises exactly on present values that are not strings:
      `str()` of an integer, a boolean, a date or a time holds no keyword, and
      such a value has no `strip()`. */
  lemma MapViolationFails(v: Value)
    ensures MapViolation(v).Err? <==> NonText(v)
  {
    match v
    case Int(n) =>
      PaddedIsNumeric(n, 0);
      NumericTextHasNoCategory(IntegerText(n));
    case Bool(b) =>
      BoolTextHasNoCategory();
    case DateV(d) =>
      PaddedIsNumeric(d.year, 4);
      PaddedIsNumeric(d.month, 2);
      PaddedIsNumeric(d.day, 2);
      NumericConcat(Padded(d.year, 4), "-");
      NumericConcat(Padded(d.year, 4) + "-", Padded(d.month, 2));
      NumericConcat(Padded(d.year, 4) + "-" + Padded(d.month, 2), "-");
      NumericConcat(Padded(d.year, 4) + "-" + Padded(d.month, 2) + "-", Padded(d.day, 2));
      NumericTextHasNoCategory(PyStr(v));
    case TimeV(tm) =>
      PaddedIsNumeric(tm.hour, 2);
      PaddedIsNumeric(tm.minute, 2);
      PaddedIsNumeric(tm.second, 2);
      NumericConcat(Padded(tm.hour, 2), ":");
      NumericConcat(Padded(tm.hour, 2) + ":", Padded(tm.minute, 2));
      NumericConcat(Padded(tm.hour, 2) + ":" + Padded(tm.minute, 2), ":");
      NumericConcat(Padded(tm.hour, 2) + ":" + Padded(tm.minute, 2) + ":", Padded(tm.second, 2));
      NumericTextHasNoCategory(PyStr(v));
    case _ =>
  }

  /** `series.apply(map_violation)` raises exactly when some cell is a
      present non-string, and then at the first such cell. */
  lemma ClassifyFails(cells: seq<Value>)
    ensures ClassifyColumn(cells).Err? <==> exists i :: 0 <= i < |cells| && NonText(cells[i])
    ensures ClassifyColumn(cells).Err? ==>
      var i := ClassifyColumn(cells).error;
      i < |cells| && NonText(cells[i]) && forall k :: 0 <= k < i ==> !NonText(cells[k])
  {
    forall i | 0 <= i < |cells|
      ensures MapViolation(cells[i]).Err? <==> NonText(cells[i])
    {
      MapViolationFails(cells[i]);
    }
  }


  // -----------------------------------------------------------------------
  // The keyword rules read as a table

  /** Some keyword of `keywords` occurs in `s`. */
  predicate AnyContained(s: string, keywords: seq<string>) {
    exists k :: 0 <= k < |keywords| && Contains(s, keywords[k])
  }

  lemma AnyContainedCons(s: string, keywords: seq<string>)
    requires keywords != []
    ensures AnyContained(s, keywords) == (Contains(s, keywords[0]) || AnyContained(s, keywords[1..]))
  {
    if AnyContained(s, keywords) && !Contains(s, keywords[0]) {
      var k :| 0 <= k < |keywords| && Contains(s, keywords[k]);
      assert keywords[1..][k - 1] == keywords[k];
    }
    if AnyContained(s, keywords[1..]) {
      var k :| 0 <= k < |keywords| - 1 && Contains(s, keywords[1..][k]);
      assert keywords[k + 1] == keywords[1..][k];
    }
    if Contains(s, keywords[0]) {
      assert 0 < |keywords|;
    }
  }

  /** The class of the first rule one of whose keywords occurs in `s`. */
  function FirstMatch(s: string, rules: seq<(seq<string>, string)>): (r: Option<string>)
    ensures r.Some? <==> exists i :: 0 <= i < |rules| && AnyContained(s, rules[i].0)
    ensures r.Some? ==>
      exists i :: 0 <= i < |rules| && AnyContained(s, rules[i].0) && r.value == rules[i].1 &&
        forall j :: 0 <= j < i ==> !AnyContained(s, rules[j].0)
  {
    if rules == [] then None
    else if AnyContained(s, rules[0].0) then Some(rules[0].1)
    else
      var r := FirstMatch(s, rules[1..]);
      assert forall i :: 0 < i < |rules| ==> rules[i] == rules[1..][i - 1];
      if r.Some? then
        var i :| 0 <= i < |rules| - 1 && AnyContained(s, rules[1..][i].0) && r.value == rules[1..][i].1 &&
          forall j :: 0 <= j < i ==> !AnyContained(s, rules[1..][j].0);
        assert AnyContained(s, rules[i + 1].0) && forall j :: 0 <= j < i + 1 ==> !AnyContained(s, rules[j].0);
        r
      else
        r
  }

  lemma FirstMatchCons(s: string, rules: seq<(seq<string>, string)>)
    requires rules != []
    ensures FirstMatch(s, rules) ==
      if AnyContained(s, rules[0].0) then Some(rules[0].1) else FirstMatch(s, rules[1..])
  {
  }

  /** The if-chain of `map_violation` is the rule table tried in order: the
      first class with a keyword in the text wins. */
  lemma CategoryIsFirstMatch(s: string)
    ensures Category(s) == FirstMatch(s, VIOLATION_RULES)
  {
    var r0 := VIOLATION_RULES;
    var r1 := [(["dui", "drunk"], "DUI"), (["seat"], "Seatbelt"), (["equipment"], "Equipment")];
    var r2 := [(["seat"], "Seatbelt"), (["equipment"], "Equipment")];
    var r3 := [(["equipment"], "Equipment")];
    assert r0[1..] == r1 && r1[1..] == r2 && r2[1..] == r3 && r3[1..] == [];
    FirstMatchCons(s, r0);
    FirstMatchCons(s, r1);
    FirstMatchCons(s, r2);
    FirstMatchCons(s, r3);
    AnyContainedCons(s, ["speed"]);
    AnyContainedCons(s, ["dui", "drunk"]);
    AnyContainedCons(s, ["drunk"]);
    AnyContainedCons(s, ["seat"]);
    AnyContainedCons(s, ["equipment"]);
    assert !AnyContained(s, []);
    assert ["dui", "drunk"][1..] == ["drunk"];
  }

  // -----------------------------------------------------------------------
  // map_violation applied twice

  /** The class names, as `map_violation` returns them. */
  const CLASS_NAMES: seq<string> := ["Speeding", "DUI", "Seatbelt", "Equipment"]

  lemma CategoryNames(s: string)
    ensures Category(s).Some? ==> Category(s).value in CLASS_NAMES
  {
  }

  lemma LowerSpeeding() ensures Lower("Speeding") == "speeding" {}
  lemma LowerDui() ensures Lower("DUI") == "dui" {}
  lemma LowerSeatbelt() ensures Lower("Seatbelt") == "seatbelt" {}
  lemma LowerEquipment() ensures Lower("Equipment") == "equipment" {}
  lemma SpeedingClass() ensures Category("speeding") == Some("Speeding") {}
  lemma DuiClass() ensures Category("dui") == Some("DUI") {}

  lemma SeatbeltNoSpeed() ensures !Contains("seatbelt", "speed") {
    assert "seatbelt"[1..] == "eatbelt";
    NotContainsFirstChar("eatbelt", "speed");
  }

  lemma SeatbeltHasSeat() ensures Contains("seatbelt", "seat") {
    assert "seatbelt"[..4] == "seat";
    PrefixContained("seatbelt", "seat");
  }

  lemma SeatbeltClass() ensures Category("seatbelt") == Some("Seatbelt") {
    SeatbeltNoSpeed();
    NotContainsFirstChar("seatbelt", "dui");
    NotContainsFirstChar("seatbelt", "drunk");
    SeatbeltHasSeat();
  }

  lemma EquipmentHasEquipment() ensures Contains("equipment", "equipment") {
    PrefixContained("equipment", "equipment");
  }

  lemma EquipmentNoS() ensures !Contains("equipment", "speed") && !Contains("equipment", "seat") {
    NotContainsFirstChar("equipment", "speed");
    NotContainsFirstChar("equipment", "seat");
  }

  lemma EquipmentNoD() ensures !Contains("equipment", "dui") && !Contains("equipment", "drunk") {
    NotContainsFirstChar("equipment", "dui");
    NotContainsFirstChar("equipment", "drunk");
  }

  lemma EquipmentClass() ensures Category("equipment") == Some("Equipment") {
    EquipmentNoS();
    EquipmentNoD();
    EquipmentHasEquipment();
  }

  lemma SpeedingFixed() ensures Category(Lower("Speeding")) == Some("Speeding") {
    LowerSpeeding(); SpeedingClass();
  }

  lemma DuiFixed() ensures Category(Lower("DUI")) == Some("DUI") {
    LowerDui(); DuiClass();
  }

  lemma SeatbeltFixed() ensures Category(Lower("Seatbelt")) == Some("Seatbelt") {
    LowerSeatbelt(); SeatbeltClass();
  }

  lemma EquipmentFixed() ensures Category(Lower("Equipment")) == Some("Equipment") {
    LowerEquipment(); EquipmentClass();
  }

  /** A class name read again is the same class. */
  lemma ClassIsFixed(c: string)
    requires c in CLASS_NAMES
    ensures Category(Lower(c)) == Some(c)
  {
    if c == "Speeding" {
      SpeedingFixed();
      SameClass(c, "Speeding");
    } else if c == "DUI" {
      DuiFixed();
      SameClass(c, "DUI");
    } else if c == "Seatbelt" {
      SeatbeltFixed();
      SameClass(c, "Seatbelt");
    } else {
      assert c == "Equipment";
      EquipmentFixed();
      SameClass(c, "Equipment");
    }
  }

  lemma SameClass(c: string, k: string)
    requires c == k && Category(Lower(k)) == Some(k)
    ensures Category(Lower(c)) == Some(c)
  {
  }

  /** A keyword absent from a text is absent from every part of it. */
  lemma NoCategoryOfSlice(s: string, i: nat, j: nat)
    requires i <= j <= |s| && Category(s) == None
    ensures Category(s[i..j]) == None
  {
    if Contains(s[i..j], "speed") { ContainsOfSlice(s, i, j, "speed"); }
    if Contains(s[i..j], "dui") { ContainsOfSlice(s, i, j, "dui"); }
    if Contains(s[i..j], "drunk") { ContainsOfSlice(s, i, j, "drunk"); }
    if Contains(s[i..j], "seat") { ContainsOfSlice(s, i, j, "seat"); }
    if Contains(s[i..j], "equipment") { ContainsOfSlice(s, i, j, "equipment"); }
  }

  /** Classifying an already classified value changes nothing: a class name
      maps to itself, and stripped title-cased text is left as it is. */
  lemma MapViolationIdempotent(v: Value)
    requires MapViolation(v).Ok?
    ensures MapViolation(MapViolation(v).value) == MapViolation(v)
  {
    if !v.Null? {
      var lowered := Lower(PyStr(v));
      if Category(lowered).Some? {
        CategoryNames(lowered);
        ClassIsFixed(Category(lowered).value);
      } else {
        var text := v.text;
        var s := Strip(text);
        StripFacts(text);
        var i, j :| 0 <= i <= j <= |text| && s == text[i..j];
        LowerOfSlice(text, i, j);
        NoCategoryOfSlice(lowered, i, j);
        LowerOfTitle(s);
        TitleKeepsStripped(s);
        StripOfStripped(Title(s));
        TitleIdempotent(s);
      }
    }
  }

  /** A text with two keyword classes takes the earlier rule. */
  lemma SpeedingBeforeDui(text: string)
    requires text == "DUI speeding stop"
    ensures MapViolation(Str(text)) == Ok(Str("Speeding"))
  {
    var lowered := Lower(text);
    assert lowered[4..9] == "speed";
    assert OccursAt(lowered, "speed", 4);
    ContainsIff(lowered, "speed");
  }

  // -----------------------------------------------------------------------
  // The boolean tokens, the age and the categorical default

  /** Coercing twice is coercing once: true and false are themselves keys. */
  lemma BoolTokenIdempotent(v: Value)
    ensures BoolToken(BoolToken(v)) == BoolToken(v)
  {
  }

  /** The text of an integer age reads back as that age. */
  lemma CoerceAgeOfText(n: int)
    ensures CoerceAge(Str(IntegerText(n))) == Int(n)
  {
    ParseIntegerOfText(n);
  }

  /** A coerced age is coerced again to itself. */
  lemma CoerceAgeIdempotent(v: Value)
    ensures CoerceAge(CoerceAge(v)) == CoerceAge(v)
  {
  }

  /** After the default no cell is missing, and present cells are kept. */
  lemma FillUnknownFacts(v: Value)
    ensures !FillUnknown(v).Null?
    ensures !v.Null? ==> FillUnknown(v) == v
    ensures FillUnknown(FillUnknown(v)) == FillUnknown(v)
  {
  }
}
