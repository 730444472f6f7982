/**
 * The record-cleaning pipeline `load_and_clean` of data_processing.py.
 *
 * Each step is a function from frame to frame, in the order the code runs
 * them; `Clean` composes them and `LoadAndClean` performs them one statement
 * at a time, rebinding its frame as the code rebinds `df`.
 */
module Cleaning {
  import opened Values
  import opened Text
  import opened Tables

  const STOP_DATE := "stop_date"
  const STOP_TIME := "stop_time"
  const DRIVER_AGE := "driver_age"
  const DRIVER_AGE_RAW := "driver_age_raw"
  const VIOLATION := "violation"
  const VIOLATION_RAW := "violation_raw"
  const NEEDS_REVIEW := "needs_review"
  const UNKNOWN := "Unknown"

  /** The boolean-like columns, in the order the code visits them. */
  const BOOL_COLUMNS: seq<string> := ["search_conducted", "is_arrested", "drugs_related_stop"]

  /** The categorical columns that are defaulted to "Unknown", in order. */
  const CATEGORICAL_COLUMNS: seq<string> :=
    ["country_name", "driver_gender", "driver_race", "stop_outcome", "stop_duration"]

  /**
   * The permissive parsers behind `pd.to_datetime(..., errors='coerce')`
   * followed by `.dt.date` and `.dt.time`: `None` where a value cannot be
   * read. They belong to pandas and are parameters of the model.
   */
  datatype Parsers = Parsers(date: Value -> Option<Date>, time: Value -> Option<TimeOfDay>)

  /** How `load_and_clean` can fail: `map_violation` raised on the cell in this row. */
  datatype CleanError = ViolationNotText(row: nat)

  /** Why `map_violation` raises: it calls `strip()` on a value that is not a string. */
  datatype Fault = StripOfNonText

  // -----------------------------------------------------------------------
  // Column-wise rewriting

  /** `series.map(f)` / `series.apply(f)` for a total `f`. */
  function MapCells(cells: seq<Value>, f: Value -> Value): seq<Value> {
    seq(|cells|, i requires 0 <= i < |cells| => f(cells[i]))
  }

  /** `if n in df.columns: df[n] = df[n].map(f)`. */
  function MapColumn(t: Table, n: string, f: Value -> Value): (r: Table)
    requires Valid(t)
    ensures Valid(r) && r.rows == t.rows && ColumnNames(r) == ColumnNames(t)
    ensures Has(t, n) ==> Cells(r, n) == MapCells(Cells(t, n), f)
    ensures forall m :: m != n && Has(t, m) ==> Cells(r, m) == Cells(t, m)
  {
    if Has(t, n) then Put(t, n, MapCells(Cells(t, n), f)) else t
  }

  /** `for c in cs: if c in df.columns: df[c] = df[c].map(f)`. */
  function MapColumns(t: Table, cs: seq<string>, f: Value -> Value): (r: Table)
    requires Valid(t)
    ensures Valid(r) && r.rows == t.rows && ColumnNames(r) == ColumnNames(t)
    decreases |cs|
  {
    if cs == [] then t else MapColumns(MapColumn(t, cs[0], f), cs[1..], f)
  }

  /** With distinct names in `cs`, each listed column is mapped once and no other column changes. */
  lemma {:induction false} MapColumnsCells(t: Table, cs: seq<string>, f: Value -> Value, m: string)
    requires Valid(t) && Distinct(cs) && Has(t, m)
    ensures Cells(MapColumns(t, cs, f), m) == if m in cs then MapCells(Cells(t, m), f) else Cells(t, m)
    decreases |cs|
  {
    if cs != [] {
      assert Distinct(cs[1..]) by {
        assert forall i :: 0 <= i < |cs| - 1 ==> cs[1..][i] == cs[i + 1];
      }
      assert cs[0] !in cs[1..];
      MapColumnsCells(MapColumn(t, cs[0], f), cs[1..], f, m);
    }
  }

  // -----------------------------------------------------------------------
  // Step 1: `df.dropna(axis=1, how='all')`

  /** Every cell is missing (vacuously so when there are no rows). */
  predicate AllMissing(cells: seq<Value>) {
    forall i :: 0 <= i < |cells| ==> cells[i].Null?
  }

  /** The columns that hold at least one value, in their original order. */
  function KeepPresent(cols: seq<Column>): seq<Column> {
    if cols == [] then []
    else (if AllMissing(cols[0].cells) then [] else [cols[0]]) + KeepPresent(cols[1..])
  }

  /** Pruning keeps exactly the columns with a present cell. */
  lemma {:induction false} KeepPresentMembers(cols: seq<Column>)
    ensures forall c :: c in KeepPresent(cols) <==> c in cols && !AllMissing(c.cells)
    ensures |KeepPresent(cols)| <= |cols|
  {
    if cols != [] {
      KeepPresentMembers(cols[1..]);
      assert cols == [cols[0]] + cols[1..];
    }
  }

  function DropEmptyColumns(t: Table): (r: Table)
    requires Rectangular(t)
    ensures Rectangular(r) && r.rows == t.rows
  {
    var kept := KeepPresent(t.columns);
    KeepPresentMembers(t.columns);
    assert forall i :: 0 <= i < |kept| ==> kept[i] in t.columns;
    Table(t.rows, kept)
  }

  // -----------------------------------------------------------------------
  // Step 2: `df.columns = [c.strip().lower() for c in df.columns]`

  function NormalizeName(name: string): string {
    Lower(Strip(name))
  }

  function NormalizeNames(t: Table): Table {
    Table(t.rows, seq(|t.columns|, j requires 0 <= j < |t.columns| =>
      Column(NormalizeName(t.columns[j].name), t.columns[j].cells)))
  }

  /** The frame after pruning and renaming, which every later step works on. */
  function Renamed(t: Table): Table
    requires Rectangular(t)
  {
    NormalizeNames(DropEmptyColumns(t))
  }

  /**
   * What the pipeline needs of its input: one cell per row in every column,
   * and no two surviving columns with the same normalised name (the code
   * does not check this; pandas would then hold duplicate column labels).
   */
  predicate Cleanable(t: Table) {
    Rectangular(t) && Distinct(ColumnNames(Renamed(t)))
  }

  // -----------------------------------------------------------------------
  // Steps 3 and 4: date and time parsing

  /** One `stop_date` cell after parsing: missing stays missing, a failed parse becomes missing. */
  function DateCell(p: Parsers, v: Value): Value {
    if v.Null? then Null
    else match p.date(v)
      case None => Null
      case Some(d) => DateV(d)
  }

  function TimeCell(p: Parsers, v: Value): Value {
    if v.Null? then Null
    else match p.time(v)
      case None => Null
      case Some(tm) => TimeV(tm)
  }

  function DateCells(p: Parsers, cells: seq<Value>): seq<Value> {
    seq(|cells|, i requires 0 <= i < |cells| => DateCell(p, cells[i]))
  }

  function TimeCells(p: Parsers, cells: seq<Value>): seq<Value> {
    seq(|cells|, i requires 0 <= i < |cells| => TimeCell(p, cells[i]))
  }

  function ParseDates(t: Table, p: Parsers): (r: Table)
    requires Valid(t)
    ensures Valid(r) && r.rows == t.rows && ColumnNames(r) == ColumnNames(t)
    ensures Has(t, STOP_DATE) ==> Cells(r, STOP_DATE) == DateCells(p, Cells(t, STOP_DATE))
    ensures forall m :: m != STOP_DATE && Has(t, m) ==> Cells(r, m) == Cells(t, m)
  {
    if Has(t, STOP_DATE) then Put(t, STOP_DATE, DateCells(p, Cells(t, STOP_DATE))) else t
  }

  function ParseTimes(t: Table, p: Parsers): (r: Table)
    requires Valid(t)
    ensures Valid(r) && r.rows == t.rows && ColumnNames(r) == ColumnNames(t)
    ensures Has(t, STOP_TIME) ==> Cells(r, STOP_TIME) == TimeCells(p, Cells(t, STOP_TIME))
    ensures forall m :: m != STOP_TIME && Has(t, m) ==> Cells(r, m) == Cells(t, m)
  {
    if Has(t, STOP_TIME) then Put(t, STOP_TIME, TimeCells(p, Cells(t, STOP_TIME))) else t
  }

  // -----------------------------------------------------------------------
  // Step 5: `pd.to_numeric(..., errors='coerce').astype('Int64')`

  /** One age cell: integers stay, booleans count as 0 and 1, integer text is
      read, and everything else becomes missing. */
  function CoerceAge(v: Value): (r: Value)
    ensures r.Null? || r.Int?
    ensures v.Int? ==> r == v
    ensures v.Str? && ParseInteger(v.text).Some? ==> r == Int(ParseInteger(v.text).value)
    ensures v.Str? && ParseInteger(v.text).None? ==> r.Null?
    ensures (v.Null? || v.DateV? || v.TimeV?) ==> r.Null?
  {
    match v
    case Int(n) => Int(n)
    case Bool(b) => Int(if b then 1 else 0)
    case Str(s) => (match ParseInteger(s) case Some(n) => Int(n) case None => Null)
    case _ => Null
  }

  function DeriveAge(t: Table): (r: Table)
    requires Valid(t)
    ensures Valid(r) && r.rows == t.rows
    ensures ColumnNames(r) ==
      if !Has(t, DRIVER_AGE) && Has(t, DRIVER_AGE_RAW) then ColumnNames(t) + [DRIVER_AGE] else ColumnNames(t)
    ensures !Has(t, DRIVER_AGE) && Has(t, DRIVER_AGE_RAW) ==>
      Cells(r, DRIVER_AGE) == MapCells(Cells(t, DRIVER_AGE_RAW), CoerceAge)
    ensures Has(t, DRIVER_AGE) ==> Cells(r, DRIVER_AGE) == MapCells(Cells(t, DRIVER_AGE), CoerceAge)
    ensures forall m :: m != DRIVER_AGE && Has(t, m) ==> Cells(r, m) == Cells(t, m)
  {
    if !Has(t, DRIVER_AGE) && Has(t, DRIVER_AGE_RAW) then
      Put(t, DRIVER_AGE, MapCells(Cells(t, DRIVER_AGE_RAW), CoerceAge))
    else if Has(t, DRIVER_AGE) then
      Put(t, DRIVER_AGE, MapCells(Cells(t, DRIVER_AGE), CoerceAge))
    else
      t
  }

  // -----------------------------------------------------------------------
  // Step 6: the boolean token table

  /** The keys of the lookup table that map to true, and those that map to false. */
  const TRUE_KEYS: seq<Value> := [Str("True"), Str("true"), Str("1"), Int(1), Bool(true)]
  const FALSE_KEYS: seq<Value> := [Str("False"), Str("false"), Str("0"), Int(0), Bool(false)]

  /**
   * The lookup table applied with `series.map({...})`; a value that is not a
   * key becomes missing. Python's `1 == True` and `0 == False` make the
   * integer and boolean keys the same keys.
   */
  function BoolToken(v: Value): (r: Value)
    ensures r == Bool(true) <==> v in TRUE_KEYS
    ensures r == Bool(false) <==> v in FALSE_KEYS
    ensures r.Null? <==> v !in TRUE_KEYS + FALSE_KEYS
  {
    match v
    case Str(s) =>
      if s == "True" || s == "true" || s == "1" then Bool(true)
      else if s == "False" || s == "false" || s == "0" then Bool(false)
      else Null
    case Int(n) => if n == 1 then Bool(true) else if n == 0 then Bool(false) else Null
    case Bool(b) => Bool(b)
    case _ => Null
  }

  // -----------------------------------------------------------------------
  // Step 7: `map_violation`

  /** The keyword classes of `map_violation`, in the order they are tried. */
  const VIOLATION_RULES: seq<(seq<string>, string)> :=
    [(["speed"], "Speeding"), (["dui", "drunk"], "DUI"), (["seat"], "Seatbelt"), (["equipment"], "Equipment")]

  /** The if-chain of `map_violation` on the lower-cased text. */
  function Category(lowered: string): Option<string> {
    if Contains(lowered, "speed") then Some("Speeding")
    else if Contains(lowered, "dui") || Contains(lowered, "drunk") then Some("DUI")
    else if Contains(lowered, "seat") then Some("Seatbelt")
    else if Contains(lowered, "equipment") then Some("Equipment")
    else None
  }

  /** `"%02d"`-style zero padding, used by `str()` of dates and times. */
  function Padded(n: int, width: nat): string {
    var digits := IntegerText(n);
    if n >= 0 && |digits| < width then seq(width - |digits|, _ => '0') + digits else digits
  }

  /** Python's `str(v)` for the non-missing cell kinds. */
  function PyStr(v: Value): string
    requires !v.Null?
  {
    match v
    case Str(s) => s
    case Int(n) => IntegerText(n)
    case Bool(b) => if b then "True" else "False"
    case DateV(d) => Padded(d.year, 4) + "-" + Padded(d.month, 2) + "-" + Padded(d.day, 2)
    case TimeV(tm) => Padded(tm.hour, 2) + ":" + Padded(tm.minute, 2) + ":" + Padded(tm.second, 2)
  }

  /**
   * `map_violation(s)`: missing stays missing; otherwise the first keyword
   * class found in `str(s).lower()`, and failing that `s.strip().title()`,
   * which raises when `s` is not a string.
   */
  function MapViolation(v: Value): Result<Value, Fault> {
    if v.Null? then Ok(Null)
    else match Category(Lower(PyStr(v)))
      case Some(c) => Ok(Str(c))
      case None => if v.Str? then Ok(Str(Title(Strip(v.text)))) else Err(StripOfNonText)
  }

  /** `series.apply(map_violation)`: the classified cells, or the first row on which it raises. */
  function ClassifyColumn(cells: seq<Value>): (r: Result<seq<Value>, nat>)
    ensures r.Ok? <==> forall i :: 0 <= i < |cells| ==> MapViolation(cells[i]).Ok?
    ensures r.Ok? ==> (|r.value| == |cells| &&
      forall i :: 0 <= i < |cells| ==> r.value[i] == MapViolation(cells[i]).value)
    ensures r.Err? ==> (r.error < |cells| && MapViolation(cells[r.error]).Err? &&
      forall i :: 0 <= i < r.error ==> MapViolation(cells[i]).Ok?)
  {
    if cells == [] then Ok([])
    else match MapViolation(cells[0])
      case Err(_) => Err(0)
      case Ok(v) =>
        match ClassifyColumn(cells[1..])
        case Err(k) => Err(k + 1)
        case Ok(vs) => Ok([v] + vs)
  }

  /** `violation` is derived from `violation_raw` only when it is not already there. */
  function DeriveViolation(t: Table): (r: Result<Table, CleanError>)
    requires Valid(t)
    ensures r.Ok? ==> Valid(r.value) && r.value.rows == t.rows
    ensures r.Ok? ==> ColumnNames(r.value) ==
                      if Has(t, VIOLATION_RAW) && !Has(t, VIOLATION) then ColumnNames(t) + [VIOLATION] else ColumnNames(t)
    ensures r.Ok? ==> forall m :: m != VIOLATION && Has(t, m) ==> Cells(r.value, m) == Cells(t, m)
    ensures r.Ok? && Has(t, VIOLATION) ==> Cells(r.value, VIOLATION) == Cells(t, VIOLATION)
    ensures r.Ok? && Has(t, VIOLATION_RAW) && !Has(t, VIOLATION) ==>
      ClassifyColumn(Cells(t, VIOLATION_RAW)) == Ok(Cells(r.value, VIOLATION))
  {
    if Has(t, VIOLATION_RAW) && !Has(t, VIOLATION) then
      match ClassifyColumn(Cells(t, VIOLATION_RAW))
      case Err(i) => Err(ViolationNotText(i))
      case Ok(cs) => Ok(Put(t, VIOLATION, cs))
    else
      Ok(t)
  }

  // -----------------------------------------------------------------------
  // Step 8: `df[c].fillna('Unknown')`

  function FillUnknown(v: Value): Value {
    if v.Null? then Str(UNKNOWN) else v
  }

  // -----------------------------------------------------------------------
  // Step 9: `needs_review`

  function ReviewFlags(dates: seq<Value>, times: seq<Value>): seq<Value>
    requires |dates| == |times|
  {
    seq(|dates|, i requires 0 <= i < |dates| => Bool(dates[i].Null? && times[i].Null?))
  }

  function AddReviewFlag(t: Table): (r: Table)
    requires Valid(t)
    ensures Valid(r) && r.rows == t.rows
    ensures ColumnNames(r) ==
      if Has(t, STOP_DATE) && Has(t, STOP_TIME) && !Has(t, NEEDS_REVIEW) then ColumnNames(t) + [NEEDS_REVIEW]
      else ColumnNames(t)
    ensures forall m :: m != NEEDS_REVIEW && Has(t, m) ==> Cells(r, m) == Cells(t, m)
    ensures Has(t, STOP_DATE) && Has(t, STOP_TIME) ==>
      Cells(r, NEEDS_REVIEW) == ReviewFlags(Cells(t, STOP_DATE), Cells(t, STOP_TIME))
    ensures !(Has(t, STOP_DATE) && Has(t, STOP_TIME)) && Has(t, NEEDS_REVIEW) ==>
      Cells(r, NEEDS_REVIEW) == Cells(t, NEEDS_REVIEW)
  {
    if Has(t, STOP_DATE) && Has(t, STOP_TIME) then
      Put(t, NEEDS_REVIEW, ReviewFlags(Cells(t, STOP_DATE), Cells(t, STOP_TIME)))
    else
      t
  }

  // -----------------------------------------------------------------------
  // The whole pipeline

  lemma RenamedValid(t: Table)
    requires Cleanable(t)
    ensures Valid(Renamed(t)) && Renamed(t).rows == t.rows
  {
  }

  lemma SuffixTail(cs: seq<string>, k: nat)
    requires k < |cs|
    ensures cs[k..] != [] && cs[k..][0] == cs[k] && cs[k..][1..] == cs[k + 1..]
  {
  }

  lemma ConstantsDistinct()
    ensures Distinct(BOOL_COLUMNS) && Distinct(CATEGORICAL_COLUMNS)
  {
  }

  /** The renamed frame once dates, times and ages are parsed and the boolean columns coerced. */
  function Coerced(s: Table, p: Parsers): (r: Table)
    requires Valid(s)
    ensures Valid(r) && r.rows == s.rows
  {
    MapColumns(DeriveAge(ParseTimes(ParseDates(s, p), p)), BOOL_COLUMNS, BoolToken)
  }

  /** The steps after violation classification: the categorical defaults and `needs_review`. */
  function Finish(t: Table): (r: Table)
    requires Valid(t)
    ensures Valid(r) && r.rows == t.rows
  {
    AddReviewFlag(MapColumns(t, CATEGORICAL_COLUMNS, FillUnknown))
  }

  /** Everything `load_and_clean` does after pruning and renaming, on the renamed frame `s`. */
  function CleanRenamed(s: Table, p: Parsers): (r: Result<Table, CleanError>)
    requires Valid(s)
    ensures r.Ok? ==> Valid(r.value) && r.value.rows == s.rows
  {
    match DeriveViolation(Coerced(s, p))
    case Err(e) => Err(e)
    case Ok(t7) => Ok(Finish(t7))
  }

  /** `load_and_clean(df)` for a frame argument, as the composition of its steps. */
  function Clean(t: Table, p: Parsers): (r: Result<Table, CleanError>)
    requires Cleanable(t)
    ensures r.Ok? ==> Valid(r.value) && r.value.rows == t.rows
  {
    RenamedValid(t);
    CleanRenamed(Renamed(t), p)
  }

  /**
   * `load_and_clean(df)`, statement by statement: the frame is rebound after
   * every step, and the boolean and categorical columns are rewritten in
   * loops, one column at a time.
   */
  method LoadAndClean(input: Table, p: Parsers) returns (r: Result<Table, CleanError>)
    requires Cleanable(input)
    ensures r == Clean(input, p)
    ensures r.Ok? ==> Valid(r.value) && r.value.rows == input.rows
  {
    RenamedValid(input);
    ConstantsDistinct();
    var df := DropEmptyColumns(input);
    df := NormalizeNames(df);
    ghost var renamed := df;
    df := ParseDates(df, p);
    df := ParseTimes(df, p);
    df := DeriveAge(df);
    ghost var aged := df;

    for k := 0 to |BOOL_COLUMNS|
      invariant Valid(df) && df.rows == input.rows
      invariant MapColumns(df, BOOL_COLUMNS[k..], BoolToken) == MapColumns(aged, BOOL_COLUMNS, BoolToken)
    {
      var c := BOOL_COLUMNS[k];
      SuffixTail(BOOL_COLUMNS, k);
      if Has(df, c) {
        df := Put(df, c, MapCells(Cells(df, c), BoolToken));
      }
    }

    assert df == Coerced(renamed, p);
    ghost var coerced := df;
    if Has(df, VIOLATION_RAW) && !Has(df, VIOLATION) {
      var classified := ClassifyColumn(Cells(df, VIOLATION_RAW));
      if classified.Err? {
        return Err(ViolationNotText(classified.error));
      }
      df := Put(df, VIOLATION, classified.value);
    }
    assert DeriveViolation(coerced) == Ok(df);
    ghost var classified := df;

    for k := 0 to |CATEGORICAL_COLUMNS|
      invariant Valid(df) && df.rows == input.rows
      invariant MapColumns(df, CATEGORICAL_COLUMNS[k..], FillUnknown) ==
        MapColumns(classified, CATEGORICAL_COLUMNS, FillUnknown)
    {
      var c := CATEGORICAL_COLUMNS[k];
      SuffixTail(CATEGORICAL_COLUMNS, k);
      if Has(df, c) {
        df := Put(df, c, MapCells(Cells(df, c), FillUnknown));
      }
    }

    assert df == MapColumns(classified, CATEGORICAL_COLUMNS, FillUnknown);
    df := AddReviewFlag(df);
    r := Ok(df);
  }
}
