/**
 * The one-record demonstration frame at the bottom of data_processing.py,
 * and what `load_and_clean` makes of it: `search_type` is dropped because it
 * holds no value, the date and time are parsed, the age is read from
 * `driver_age_raw`, the violation is classified and the review flag is added.
 */
module Sample {
  import opened Values
  import opened Text
  import opened Tables
  import opened Cleaning
  import opened CellFacts
  import opened CleaningFacts

  /** The keys of the demonstration record, in the order written. */
  const SAMPLE_NAMES: seq<string> := [
    "stop_date", "stop_time", "country_name", "driver_gender", "driver_age_raw",
    "driver_race", "violation_raw", "search_conducted", "search_type", "stop_outcome",
    "is_arrested", "stop_duration", "drugs_related_stop", "vehicle_plate", "officer_id"]

  /** Its values; `None` for `search_type` is a missing cell. */
  const SAMPLE_ROW: seq<Value> := [
    Str("2025-11-15"), Str("14:30"), Str("CountryX"), Str("Male"), Str("27"),
    Str("Unknown"), Str("Speeding"), Bool(false), Null, Str("Citation"),
    Bool(false), Str("6-15 minutes"), Bool(false), Str("TN09AB1234"), Str("OFCR001")]

  /** The names and values without the all-missing `search_type`. */
  const PRUNED_NAMES: seq<string> := [
    "stop_date", "stop_time", "country_name", "driver_gender", "driver_age_raw",
    "driver_race", "violation_raw", "search_conducted", "stop_outcome",
    "is_arrested", "stop_duration", "drugs_related_stop", "vehicle_plate", "officer_id"]

  const PRUNED_ROW: seq<Value> := [
    Str("2025-11-15"), Str("14:30"), Str("CountryX"), Str("Male"), Str("27"),
    Str("Unknown"), Str("Speeding"), Bool(false), Str("Citation"),
    Bool(false), Str("6-15 minutes"), Bool(false), Str("TN09AB1234"), Str("OFCR001")]

  /** The cleaned record: the parsed date and time, then the three added columns. */
  const CLEANED_NAMES: seq<string> := PRUNED_NAMES + [DRIVER_AGE, VIOLATION, NEEDS_REVIEW]

  const CLEANED_ROW: seq<Value> := [
    DateV(Date(2025, 11, 15)), TimeV(TimeOfDay(14, 30, 0)), Str("CountryX"), Str("Male"), Str("27"),
    Str("Unknown"), Str("Speeding"), Bool(false), Str("Citation"),
    Bool(false), Str("6-15 minutes"), Bool(false), Str("TN09AB1234"), Str("OFCR001"),
    Int(27), Str("Speeding"), Bool(false)]

  /** A frame of one row. */
  function Frame(names: seq<string>, row: seq<Value>): (t: Table)
    requires |names| == |row|
    ensures Rectangular(t) && t.rows == 1 && ColumnNames(t) == names
  {
    var t := Table(1, seq(|names|, j requires 0 <= j < |names| => Column(names[j], [row[j]])));
    assert ColumnNames(t) == names;
    t
  }

  /** `pd.DataFrame([{...}])` of the demonstration record. */
  function Sample(): Table {
    Frame(SAMPLE_NAMES, SAMPLE_ROW)
  }

  function CleanedSample(): Table {
    Frame(CLEANED_NAMES, CLEANED_ROW)
  }

  // -----------------------------------------------------------------------
  // One-row frames

  lemma AllMissingOne(v: Value)
    ensures AllMissing([v]) == v.Null?
  {
    assert [v][0] == v;
  }

  /** A one-row frame with distinct names holds `row[j]` under `names[j]`. */
  lemma FrameCells(names: seq<string>, row: seq<Value>, j: nat)
    requires |names| == |row| && Distinct(names) && j < |names|
    ensures Valid(Frame(names, row))
    ensures Has(Frame(names, row), names[j]) && Cells(Frame(names, row), names[j]) == [row[j]]
  {
    CellsAt(Frame(names, row), j);
  }

  lemma FrameAppend(n1: seq<string>, r1: seq<Value>, n2: seq<string>, r2: seq<Value>)
    requires |n1| == |r1| && |n2| == |r2|
    ensures Frame(n1 + n2, r1 + r2).columns == Frame(n1, r1).columns + Frame(n2, r2).columns
  {
  }

  /** The columns of a one-row frame, split around position `k`. */
  lemma FrameSplit(names: seq<string>, row: seq<Value>, k: nat)
    requires |names| == |row| && k < |names|
    ensures Frame(names, row).columns ==
      Frame(names[..k], row[..k]).columns + [Column(names[k], [row[k]])] +
      Frame(names[k + 1..], row[k + 1..]).columns
  {
    assert names == names[..k] + [names[k]] + names[k + 1..];
    assert row == row[..k] + [row[k]] + row[k + 1..];
    FrameAppend(names[..k] + [names[k]], row[..k] + [row[k]], names[k + 1..], row[k + 1..]);
    FrameAppend(names[..k], row[..k], [names[k]], [row[k]]);
  }

  lemma KeepPresentMissing(c: Column)
    requires c.cells == [Null]
    ensures KeepPresent([c]) == []
  {
    AllMissingOne(Null);
  }

  lemma {:induction false} KeepPresentAppend(a: seq<Column>, b: seq<Column>)
    ensures KeepPresent(a + b) == KeepPresent(a) + KeepPresent(b)
  {
    if a == [] {
      assert a + b == b;
    } else {
      assert (a + b)[0] == a[0] && (a + b)[1..] == a[1..] + b;
      KeepPresentAppend(a[1..], b);
    }
  }

  lemma {:induction false} KeepPresentAll(names: seq<string>, row: seq<Value>)
    requires |names| == |row| && forall j :: 0 <= j < |row| ==> !row[j].Null?
    ensures KeepPresent(Frame(names, row).columns) == Frame(names, row).columns
  {
    var cols := Frame(names, row).columns;
    if names != [] {
      assert cols[1..] == Frame(names[1..], row[1..]).columns;
      AllMissingOne(row[0]);
      KeepPresentAll(names[1..], row[1..]);
    }
  }

  lemma NonNullSlice(row: seq<Value>, k: nat, i: nat, j: nat)
    requires i <= j <= |row| && (k < i || j <= k)
    requires forall m :: 0 <= m < |row| && m != k ==> !row[m].Null?
    ensures forall m :: 0 <= m < |row[i..j]| ==> !row[i..j][m].Null?
  {
    var r := row[i..j];
    forall m | 0 <= m < |r|
      ensures !r[m].Null?
    {
      assert r[m] == row[i + m];
    }
  }

  /** Pruning three runs of columns one after the other prunes each. */
  lemma KeepPresent3(l: seq<Column>, g: Column, r: seq<Column>)
    ensures KeepPresent(l + [g] + r) == KeepPresent(l) + KeepPresent([g]) + KeepPresent(r)
  {
    KeepPresentAppend(l + [g], r);
    KeepPresentAppend(l, [g]);
  }

  /** Pruning the frame of a row whose only missing cell is at `k` prunes
      the part before `k`, that cell's column and the part after it apart. */
  lemma KeepAround(names: seq<string>, row: seq<Value>, k: nat)
    requires |names| == |row| && k < |row|
    ensures KeepPresent(Frame(names, row).columns) ==
      KeepPresent(Frame(names[..k], row[..k]).columns) + KeepPresent([Column(names[k], [row[k]])]) +
      KeepPresent(Frame(names[k + 1..], row[k + 1..]).columns)
  {
    FrameSplit(names, row, k);
    KeepPresent3(Frame(names[..k], row[..k]).columns, Column(names[k], [row[k]]), Frame(names[k + 1..], row[k + 1..]).columns);
  }

  /** The parts before and after the only missing cell survive pruning whole. */
  lemma KeepSides(names: seq<string>, row: seq<Value>, k: nat)
    requires |names| == |row| && k < |row|
    requires forall j :: 0 <= j < |row| && j != k ==> !row[j].Null?
    ensures KeepPresent(Frame(names[..k], row[..k]).columns) == Frame(names[..k], row[..k]).columns
    ensures KeepPresent(Frame(names[k + 1..], row[k + 1..]).columns) == Frame(names[k + 1..], row[k + 1..]).columns
  {
    NonNullSlice(row, k, 0, k);
    KeepPresentAll(names[..k], row[..k]);
    NonNullSlice(row, k, k + 1, |row|);
    KeepPresentAll(names[k + 1..], row[k + 1..]);
  }

  /** Pruning a one-row frame whose only missing cell is at `k` drops that column. */
  lemma KeepAllButOne(names: seq<string>, row: seq<Value>, k: nat)
    requires |names| == |row| && k < |row| && row[k].Null?
    requires forall j :: 0 <= j < |row| && j != k ==> !row[j].Null?
    ensures KeepPresent(Frame(names, row).columns) ==
      Frame(names[..k] + names[k + 1..], row[..k] + row[k + 1..]).columns
  {
    KeepAround(names, row, k);
    KeepSides(names, row, k);
    KeepPresentMissing(Column(names[k], [row[k]]));
    FrameAppend(names[..k], row[..k], names[k + 1..], row[k + 1..]);
    JoinAround(Frame(names[..k], row[..k]).columns, Frame(names[k + 1..], row[k + 1..]).columns);
  }

  lemma JoinAround<T>(l: seq<T>, r: seq<T>)
    ensures l + [] + r == l + r
  {
  }

  /** Lower-case letters, digits and `_`: a name the renaming keeps as it is. */
  predicate SnakeName(n: string) {
    forall k :: 0 <= k < |n| ==> 'a' <= n[k] <= 'z' || '0' <= n[k] <= '9' || n[k] == '_'
  }

  lemma NormalOf(n: string)
    requires SnakeName(n)
    ensures NormalizeName(n) == n
  {
    assert Stripped(n);
    StripOfStripped(n);
  }

  /** Renaming leaves a frame alone when every name is already normal. */
  lemma NormalizeFrame(names: seq<string>, row: seq<Value>)
    requires |names| == |row|
    requires forall j :: 0 <= j < |names| ==> NormalizeName(names[j]) == names[j]
    ensures NormalizeNames(Frame(names, row)) == Frame(names, row)
  {
  }

  /** Two valid frames with the same rows, the same names and the same cells
      under every name are the same frame. */
  lemma SameFrame(t: Table, u: Table)
    requires Valid(t) && Valid(u) && t.rows == u.rows && ColumnNames(t) == ColumnNames(u)
    requires forall j :: 0 <= j < |u.columns| ==>
      Has(t, u.columns[j].name) && Cells(t, u.columns[j].name) == u.columns[j].cells
    ensures t == u
  {
    assert |t.columns| == |ColumnNames(t)| == |u.columns|;
    forall j | 0 <= j < |u.columns|
      ensures t.columns[j] == u.columns[j]
    {
      assert ColumnNames(t)[j] == ColumnNames(u)[j];
      CellsAt(t, j);
      CellsAt(u, j);
    }
  }

  /** In a one-row frame, a column is its first cell. */
  lemma OneCell(cells: seq<Value>, v: Value)
    requires |cells| == 1 && cells[0] == v
    ensures cells == [v]
  {
  }

  // -----------------------------------------------------------------------
  // The cleaning steps on any one-row frame

  lemma OneRowCleans(s: Table, p: Parsers, v: string)
    requires Valid(s) && s.rows == 1 && Has(s, VIOLATION_RAW) && Cells(s, VIOLATION_RAW) == [Str(v)]
    ensures CleanRenamed(s, p).Ok?
  {
    CleanFailsExactly(s, p);
  }

  lemma OneRowDate(s: Table, p: Parsers, v: Value, d: Date)
    requires Valid(s) && s.rows == 1 && CleanRenamed(s, p).Ok?
    requires Has(s, STOP_DATE) && Cells(s, STOP_DATE) == [v] && !v.Null? && p.date(v) == Some(d)
    ensures Has(CleanRenamed(s, p).value, STOP_DATE) && Cells(CleanRenamed(s, p).value, STOP_DATE) == [DateV(d)]
  {
    CleanDates(s, p);
    OneCell(Cells(CleanRenamed(s, p).value, STOP_DATE), DateV(d));
  }

  lemma OneRowTime(s: Table, p: Parsers, v: Value, tm: TimeOfDay)
    requires Valid(s) && s.rows == 1 && CleanRenamed(s, p).Ok?
    requires Has(s, STOP_TIME) && Cells(s, STOP_TIME) == [v] && !v.Null? && p.time(v) == Some(tm)
    ensures Has(CleanRenamed(s, p).value, STOP_TIME) && Cells(CleanRenamed(s, p).value, STOP_TIME) == [TimeV(tm)]
  {
    CleanTimes(s, p);
    OneCell(Cells(CleanRenamed(s, p).value, STOP_TIME), TimeV(tm));
  }

  lemma OneRowAge(s: Table, p: Parsers, text: string, n: int)
    requires Valid(s) && s.rows == 1 && CleanRenamed(s, p).Ok?
    requires !Has(s, DRIVER_AGE) && Has(s, DRIVER_AGE_RAW) && Cells(s, DRIVER_AGE_RAW) == [Str(text)]
    requires ParseInteger(text) == Some(n)
    ensures Has(CleanRenamed(s, p).value, DRIVER_AGE) && Cells(CleanRenamed(s, p).value, DRIVER_AGE) == [Int(n)]
  {
    CleanAge(s, p);
    OneCell(Cells(CleanRenamed(s, p).value, DRIVER_AGE), Int(n));
  }

  lemma OneRowViolation(s: Table, p: Parsers, c: string)
    requires Valid(s) && s.rows == 1 && CleanRenamed(s, p).Ok?
    requires !Has(s, VIOLATION) && Has(s, VIOLATION_RAW) && Cells(s, VIOLATION_RAW) == [Str(c)]
    requires Category(Lower(c)) == Some(c)
    ensures Has(CleanRenamed(s, p).value, VIOLATION) && Cells(CleanRenamed(s, p).value, VIOLATION) == [Str(c)]
  {
    CleanViolation(s, p);
    ClassifiedOne(Cells(s, VIOLATION_RAW), Cells(CleanRenamed(s, p).value, VIOLATION), c);
  }

  lemma ClassifiedOne(input: seq<Value>, out: seq<Value>, c: string)
    requires input == [Str(c)] && ClassifiedFrom(input, out) && Category(Lower(c)) == Some(c)
    ensures out == [Str(c)]
  {
    assert MapViolation(input[0]) == Ok(out[0]);
  }

  lemma OneRowReview(s: Table, p: Parsers, d: Date)
    requires Valid(s) && s.rows == 1 && CleanRenamed(s, p).Ok?
    requires Has(s, STOP_DATE) && Has(s, STOP_TIME)
    requires Has(CleanRenamed(s, p).value, STOP_DATE) && Cells(CleanRenamed(s, p).value, STOP_DATE) == [DateV(d)]
    ensures Has(CleanRenamed(s, p).value, NEEDS_REVIEW) && Cells(CleanRenamed(s, p).value, NEEDS_REVIEW) == [Bool(false)]
  {
    CleanReviewFlag(s, p);
    var o := CleanRenamed(s, p).value;
    FlaggedOne(Cells(o, STOP_DATE), Cells(o, STOP_TIME), Cells(o, NEEDS_REVIEW), d);
  }

  lemma FlaggedOne(dates: seq<Value>, times: seq<Value>, flags: seq<Value>, d: Date)
    requires dates == [DateV(d)] && FlaggedFrom(dates, times, flags)
    ensures flags == [Bool(false)]
  {
    assert flags[0] == Bool(false);
  }

  lemma OneRowBoolean(s: Table, p: Parsers, m: string, v: Value)
    requires Valid(s) && s.rows == 1 && CleanRenamed(s, p).Ok?
    requires m in BOOL_COLUMNS && Has(s, m) && Cells(s, m) == [v]
    ensures Has(CleanRenamed(s, p).value, m) && Cells(CleanRenamed(s, p).value, m) == [BoolToken(v)]
  {
    CleanBooleans(s, p, m);
    OneCell(Cells(CleanRenamed(s, p).value, m), BoolToken(v));
  }

  lemma NotTouched(m: string)
    requires m != STOP_DATE && m != STOP_TIME && m != DRIVER_AGE && m != VIOLATION && m != NEEDS_REVIEW
    requires m !in BOOL_COLUMNS && m !in CATEGORICAL_COLUMNS
    ensures m !in TouchedColumns()
  {
  }

  /** A column no step creates and that needs no default reaches the output
      as it came, provided the token table maps its cell to itself. */
  lemma OneRowKept(s: Table, p: Parsers, m: string, v: Value)
    requires Valid(s) && s.rows == 1 && CleanRenamed(s, p).Ok?
    requires Has(s, m) && Cells(s, m) == [v] && !v.Null?
    requires m != STOP_DATE && m != STOP_TIME && m != DRIVER_AGE && m != VIOLATION && m != NEEDS_REVIEW
    requires m in BOOL_COLUMNS ==> BoolToken(v) == v
    ensures Has(CleanRenamed(s, p).value, m) && Cells(CleanRenamed(s, p).value, m) == [v]
  {
    if m in BOOL_COLUMNS {
      OneRowBoolean(s, p, m, v);
    } else if m in CATEGORICAL_COLUMNS {
      OneRowCategorical(s, p, m, v);
    } else {
      NotTouched(m);
      CleanUntouched(s, p, m);
    }
  }

  lemma OneRowCategorical(s: Table, p: Parsers, m: string, v: Value)
    requires Valid(s) && s.rows == 1 && CleanRenamed(s, p).Ok?
    requires m in CATEGORICAL_COLUMNS && Has(s, m) && Cells(s, m) == [v] && !v.Null?
    ensures Has(CleanRenamed(s, p).value, m) && Cells(CleanRenamed(s, p).value, m) == [v]
  {
    CleanCategorical(s, p, m);
    OneCell(Cells(CleanRenamed(s, p).value, m), v);
  }

  // -----------------------------------------------------------------------
  // The demonstration record

  lemma SampleShape()
    ensures SAMPLE_ROW[8].Null? && forall j :: 0 <= j < |SAMPLE_ROW| && j != 8 ==> !SAMPLE_ROW[j].Null?
    ensures SAMPLE_NAMES[..8] + SAMPLE_NAMES[9..] == PRUNED_NAMES
    ensures SAMPLE_ROW[..8] + SAMPLE_ROW[9..] == PRUNED_ROW
  {
  }

  lemma PrunedSnakeFront()
    ensures forall j :: 0 <= j < 7 ==> SnakeName(PRUNED_NAMES[j])
  {
  }

  lemma PrunedSnakeBack()
    ensures forall j :: 7 <= j < |PRUNED_NAMES| ==> SnakeName(PRUNED_NAMES[j])
  {
  }

  lemma PrunedDistinct()
    ensures Distinct(PRUNED_NAMES)
  {
  }

  lemma CleanedDistinct()
    ensures Distinct(CLEANED_NAMES)
  {
  }

  /** Only `search_type` is dropped, and no name changes. */
  lemma SampleRenamed()
    ensures Rectangular(Sample()) && Renamed(Sample()) == Frame(PRUNED_NAMES, PRUNED_ROW)
  {
    SampleShape();
    KeepAllButOne(SAMPLE_NAMES, SAMPLE_ROW, 8);
    PrunedSnakeFront();
    PrunedSnakeBack();
    forall j | 0 <= j < |PRUNED_NAMES|
      ensures NormalizeName(PRUNED_NAMES[j]) == PRUNED_NAMES[j]
    {
      NormalOf(PRUNED_NAMES[j]);
    }
    NormalizeFrame(PRUNED_NAMES, PRUNED_ROW);
  }

  /** Where the columns the steps name sit in the renamed record. */
  lemma PrunedPlaces()
    ensures PRUNED_NAMES[0] == STOP_DATE && PRUNED_NAMES[1] == STOP_TIME
    ensures PRUNED_NAMES[4] == DRIVER_AGE_RAW && PRUNED_NAMES[6] == VIOLATION_RAW
    ensures DRIVER_AGE !in PRUNED_NAMES && VIOLATION !in PRUNED_NAMES && NEEDS_REVIEW !in PRUNED_NAMES
    ensures PRUNED_ROW[0] == Str("2025-11-15") && PRUNED_ROW[1] == Str("14:30")
    ensures PRUNED_ROW[4] == Str("27") && PRUNED_ROW[6] == Str("Speeding")
  {
    PrunedLacksAge();
    PrunedLacksViolation();
    PrunedLacksReview();
  }

  lemma PrunedLacksAge() ensures DRIVER_AGE !in PRUNED_NAMES {}
  lemma PrunedLacksViolation() ensures VIOLATION !in PRUNED_NAMES {}
  lemma PrunedLacksReview() ensures NEEDS_REVIEW !in PRUNED_NAMES {}

  lemma PrunedSchemaNames()
    ensures AddedColumns(PRUNED_NAMES) == [DRIVER_AGE, VIOLATION, NEEDS_REVIEW]
    ensures PRUNED_NAMES + [DRIVER_AGE, VIOLATION, NEEDS_REVIEW] == CLEANED_NAMES
  {
    PrunedPlaces();
  }

  /** The columns of the record that no step creates or parses. */
  lemma ListedFacts(j: nat)
    requires 2 <= j < 14
    ensures PRUNED_NAMES[j] != STOP_DATE && PRUNED_NAMES[j] != STOP_TIME && PRUNED_NAMES[j] != DRIVER_AGE
    ensures PRUNED_NAMES[j] != VIOLATION && PRUNED_NAMES[j] != NEEDS_REVIEW
    ensures !PRUNED_ROW[j].Null?
    ensures PRUNED_NAMES[j] in BOOL_COLUMNS ==> PRUNED_ROW[j] == Bool(false)
    ensures CLEANED_NAMES[j] == PRUNED_NAMES[j] && CLEANED_ROW[j] == PRUNED_ROW[j]
  {
  }

  /** Where the parsed and the added columns sit in the cleaned record. */
  lemma CleanedPlaces()
    ensures CLEANED_NAMES[0] == STOP_DATE && CLEANED_ROW[0] == DateV(Date(2025, 11, 15))
    ensures CLEANED_NAMES[1] == STOP_TIME && CLEANED_ROW[1] == TimeV(TimeOfDay(14, 30, 0))
    ensures CLEANED_NAMES[14] == DRIVER_AGE && CLEANED_ROW[14] == Int(27)
    ensures CLEANED_NAMES[15] == VIOLATION && CLEANED_ROW[15] == Str("Speeding")
    ensures CLEANED_NAMES[16] == NEEDS_REVIEW && CLEANED_ROW[16] == Bool(false)
  {
  }

  lemma AgeText()
    ensures ParseInteger("27") == Some(27)
  {
    var t := "27";
    assert AllDigits(t) && t[0] != '-' && t[0] != '+';
    assert t[..1] == "2" && "2"[..0] == "";
    assert DigitsValue("2") == 2;
  }

  /** A frame that holds the renamed demonstration record. */
  predicate HoldsPruned(s: Table) {
    Valid(s) && s.rows == 1 && ColumnNames(s) == PRUNED_NAMES &&
    forall k {:trigger Cells(s, PRUNED_NAMES[k])} :: 0 <= k < |PRUNED_NAMES| ==> Cells(s, PRUNED_NAMES[k]) == [PRUNED_ROW[k]]
  }

  /** Parsers that read the record's date and time as pandas does. */
  predicate ReadsSample(p: Parsers) {
    p.date(Str("2025-11-15")) == Some(Date(2025, 11, 15)) && p.time(Str("14:30")) == Some(TimeOfDay(14, 30, 0))
  }

  lemma PrunedCleans(s: Table, p: Parsers)
    requires HoldsPruned(s)
    ensures CleanRenamed(s, p).Ok?
  {
    PrunedPlaces();
    assert Cells(s, PRUNED_NAMES[6]) == [PRUNED_ROW[6]];
    OneRowCleans(s, p, "Speeding");
  }

  lemma CleanedDate(s: Table, p: Parsers)
    requires HoldsPruned(s) && ReadsSample(p)
    ensures CleanRenamed(s, p).Ok? && Has(CleanRenamed(s, p).value, STOP_DATE)
    ensures Cells(CleanRenamed(s, p).value, STOP_DATE) == [DateV(Date(2025, 11, 15))]
  {
    PrunedPlaces();
    PrunedCleans(s, p);
    assert Cells(s, PRUNED_NAMES[0]) == [PRUNED_ROW[0]];
    OneRowDate(s, p, Str("2025-11-15"), Date(2025, 11, 15));
  }

  lemma CleanedTime(s: Table, p: Parsers)
    requires HoldsPruned(s) && ReadsSample(p)
    ensures CleanRenamed(s, p).Ok? && Has(CleanRenamed(s, p).value, STOP_TIME)
    ensures Cells(CleanRenamed(s, p).value, STOP_TIME) == [TimeV(TimeOfDay(14, 30, 0))]
  {
    PrunedPlaces();
    PrunedCleans(s, p);
    assert Cells(s, PRUNED_NAMES[1]) == [PRUNED_ROW[1]];
    OneRowTime(s, p, Str("14:30"), TimeOfDay(14, 30, 0));
  }

  /** The other columns of the renamed record come through unchanged. */
  lemma CleanedListed(s: Table, p: Parsers, j: nat)
    requires HoldsPruned(s) && 2 <= j < 14
    ensures CleanRenamed(s, p).Ok? && Has(CleanRenamed(s, p).value, PRUNED_NAMES[j])
    ensures Cells(CleanRenamed(s, p).value, PRUNED_NAMES[j]) == [PRUNED_ROW[j]]
  {
    PrunedCleans(s, p);
    ListedFacts(j);
    assert Cells(s, PRUNED_NAMES[j]) == [PRUNED_ROW[j]];
    OneRowKept(s, p, PRUNED_NAMES[j], PRUNED_ROW[j]);
  }

  lemma CleanedAge(s: Table, p: Parsers)
    requires HoldsPruned(s)
    ensures CleanRenamed(s, p).Ok? && Has(CleanRenamed(s, p).value, DRIVER_AGE)
    ensures Cells(CleanRenamed(s, p).value, DRIVER_AGE) == [Int(27)]
  {
    PrunedPlaces();
    PrunedCleans(s, p);
    assert Cells(s, PRUNED_NAMES[4]) == [PRUNED_ROW[4]];
    AgeText();
    OneRowAge(s, p, "27", 27);
  }

  lemma CleanedViolation(s: Table, p: Parsers)
    requires HoldsPruned(s)
    ensures CleanRenamed(s, p).Ok? && Has(CleanRenamed(s, p).value, VIOLATION)
    ensures Cells(CleanRenamed(s, p).value, VIOLATION) == [Str("Speeding")]
  {
    PrunedPlaces();
    PrunedCleans(s, p);
    assert Cells(s, PRUNED_NAMES[6]) == [PRUNED_ROW[6]];
    SpeedingFixed();
    OneRowViolation(s, p, "Speeding");
  }

  lemma CleanedReview(s: Table, p: Parsers)
    requires HoldsPruned(s) && ReadsSample(p)
    ensures CleanRenamed(s, p).Ok? && Has(CleanRenamed(s, p).value, NEEDS_REVIEW)
    ensures Cells(CleanRenamed(s, p).value, NEEDS_REVIEW) == [Bool(false)]
  {
    PrunedPlaces();
    CleanedDate(s, p);
    OneRowReview(s, p, Date(2025, 11, 15));
  }

  /** Each column of the cleaned record is what cleaning puts under its name. */
  lemma CleanedColumn(s: Table, p: Parsers, j: nat)
    requires HoldsPruned(s) && ReadsSample(p) && j < |CLEANED_NAMES|
    ensures CleanRenamed(s, p).Ok? && Has(CleanRenamed(s, p).value, CLEANED_NAMES[j])
    ensures Cells(CleanRenamed(s, p).value, CLEANED_NAMES[j]) == [CLEANED_ROW[j]]
  {
    CleanedPlaces();
    if j == 0 {
      CleanedDate(s, p);
    } else if j == 1 {
      CleanedTime(s, p);
    } else if j < 14 {
      ListedFacts(j);
      CleanedListed(s, p, j);
    } else if j == 14 {
      CleanedAge(s, p);
    } else if j == 15 {
      CleanedViolation(s, p);
    } else {
      CleanedReview(s, p);
    }
  }

  /** A valid one-row frame with the names `names` that holds `row[j]` under
      each `names[j]` is the frame built from them. */
  lemma OneRowFrame(o: Table, names: seq<string>, row: seq<Value>)
    requires 0 < |names| == |row| && Distinct(names)
    requires Valid(o) && o.rows == 1 && ColumnNames(o) == names
    requires forall j :: 0 <= j < |names| ==> Has(o, names[j]) && Cells(o, names[j]) == [row[j]]
    ensures o == Frame(names, row)
  {
    var u := Frame(names, row);
    FrameCells(names, row, 0);
    forall j | 0 <= j < |u.columns|
      ensures Has(o, u.columns[j].name) && Cells(o, u.columns[j].name) == u.columns[j].cells
    {
      assert u.columns[j] == Column(names[j], [row[j]]);
    }
    SameFrame(o, u);
  }

  /** Cleaning the renamed record yields the cleaned record. */
  lemma CleanedPruned(s: Table, p: Parsers)
    requires HoldsPruned(s) && ReadsSample(p)
    ensures CleanRenamed(s, p) == Ok(CleanedSample())
  {
    PrunedCleans(s, p);
    PrunedSchemaNames();
    CleanSchema(s, p);
    var o := CleanRenamed(s, p).value;
    CleanedDistinct();
    forall j | 0 <= j < |CLEANED_NAMES|
      ensures Has(o, CLEANED_NAMES[j]) && Cells(o, CLEANED_NAMES[j]) == [CLEANED_ROW[j]]
    {
      CleanedColumn(s, p, j);
    }
    OneRowFrame(o, CLEANED_NAMES, CLEANED_ROW);
  }

  lemma PrunedHeld()
    ensures HoldsPruned(Frame(PRUNED_NAMES, PRUNED_ROW))
  {
    PrunedDistinct();
    FrameCells(PRUNED_NAMES, PRUNED_ROW, 0);
    forall k | 0 <= k < |PRUNED_NAMES|
      ensures Cells(Frame(PRUNED_NAMES, PRUNED_ROW), PRUNED_NAMES[k]) == [PRUNED_ROW[k]]
    {
      FrameCells(PRUNED_NAMES, PRUNED_ROW, k);
    }
  }

  /** Given parsers that read the sample's date and time as pandas does,
      cleaning the demonstration record yields exactly the cleaned record:
      `search_type` gone, date and time parsed, age 27, violation "Speeding"
      and no review needed. */
  lemma SampleCleaned(p: Parsers)
    requires p.date(Str("2025-11-15")) == Some(Date(2025, 11, 15))
    requires p.time(Str("14:30")) == Some(TimeOfDay(14, 30, 0))
    ensures Cleanable(Sample())
    ensures Clean(Sample(), p) == Ok(CleanedSample())
  {
    SampleRenamed();
    PrunedDistinct();
    PrunedHeld();
    CleanedPruned(Frame(PRUNED_NAMES, PRUNED_ROW), p);
  }
}
