/**
 * What `load_and_clean` guarantees, stated over `Cleaning.CleanRenamed` (every
 * step after pruning and renaming) and over `Cleaning.Renamed` (pruning and
 * renaming themselves): the output schema, how each named column is
 * rewritten, that every other column passes through, and when the call raises.
 */
module CleaningFacts {
  import opened Values
  import opened Text
  import opened Tables
  import opened Cleaning
  import opened CellFacts

  /** The columns the pipeline itself may append, given the names after renaming. */
  function AddedColumns(names: seq<string>): seq<string> {
    (if DRIVER_AGE !in names && DRIVER_AGE_RAW in names then [DRIVER_AGE] else [])
    + (if VIOLATION_RAW in names && VIOLATION !in names then [VIOLATION] else [])
    + (if STOP_DATE in names && STOP_TIME in names && NEEDS_REVIEW !in names then [NEEDS_REVIEW] else [])
  }

  /** The column names some step rewrites or creates. */
  function TouchedColumns(): seq<string> {
    [STOP_DATE, STOP_TIME, DRIVER_AGE, VIOLATION, NEEDS_REVIEW] + BOOL_COLUMNS + CATEGORICAL_COLUMNS
  }

  // -----------------------------------------------------------------------
  // Names of the constants

  lemma ConstantNamesDiffer()
    ensures STOP_DATE != STOP_TIME && STOP_DATE != DRIVER_AGE && STOP_DATE != VIOLATION && STOP_DATE != NEEDS_REVIEW
    ensures STOP_TIME != DRIVER_AGE && STOP_TIME != VIOLATION && STOP_TIME != NEEDS_REVIEW
    ensures DRIVER_AGE != VIOLATION && DRIVER_AGE != NEEDS_REVIEW && VIOLATION != NEEDS_REVIEW
    ensures VIOLATION_RAW != DRIVER_AGE && VIOLATION_RAW != VIOLATION && VIOLATION_RAW != NEEDS_REVIEW
    ensures VIOLATION_RAW != STOP_DATE && VIOLATION_RAW != STOP_TIME
  {
  }

  lemma FixedNamesNotListed()
    ensures STOP_DATE !in BOOL_COLUMNS && STOP_DATE !in CATEGORICAL_COLUMNS
    ensures STOP_TIME !in BOOL_COLUMNS && STOP_TIME !in CATEGORICAL_COLUMNS
    ensures DRIVER_AGE !in BOOL_COLUMNS && DRIVER_AGE !in CATEGORICAL_COLUMNS
    ensures VIOLATION !in BOOL_COLUMNS && VIOLATION !in CATEGORICAL_COLUMNS
    ensures NEEDS_REVIEW !in BOOL_COLUMNS && NEEDS_REVIEW !in CATEGORICAL_COLUMNS
  {
  }

  lemma ListsDisjoint(m: string)
    ensures m in BOOL_COLUMNS ==> m !in CATEGORICAL_COLUMNS
  {
  }

  lemma BooleanNames(m: string)
    requires m in BOOL_COLUMNS
    ensures m != DRIVER_AGE && m != VIOLATION && m != NEEDS_REVIEW
  {
  }

  lemma CategoricalNames(m: string)
    requires m in CATEGORICAL_COLUMNS
    ensures m != DRIVER_AGE && m != VIOLATION && m != NEEDS_REVIEW
  {
  }

  lemma AppendedMembership(names: seq<string>, extra: seq<string>, x: string)
    requires x !in extra
    ensures (x in names + extra) == (x in names)
  {
  }

  // -----------------------------------------------------------------------
  // One step at a time

  /** The renamed frame after the date, time and age steps. */
  function Aged(s: Table, p: Parsers): (r: Table)
    requires Valid(s)
    ensures Valid(r) && r.rows == s.rows
  {
    DeriveAge(ParseTimes(ParseDates(s, p), p))
  }

  /** The date, time and age steps leave every other column as it was. */
  lemma AgedKeeps(s: Table, p: Parsers, m: string)
    requires Valid(s) && Has(s, m) && m != STOP_DATE && m != STOP_TIME && m != DRIVER_AGE
    ensures Has(Aged(s, p), m) && Cells(Aged(s, p), m) == Cells(s, m)
  {
  }

  /** Coercing the boolean columns rewrites those and nothing else. */
  lemma CoercedCells(s: Table, p: Parsers, m: string)
    requires Valid(s) && Has(Aged(s, p), m)
    ensures Has(Coerced(s, p), m)
    ensures Cells(Coerced(s, p), m) ==
      if m in BOOL_COLUMNS then MapCells(Cells(Aged(s, p), m), BoolToken) else Cells(Aged(s, p), m)
  {
    ConstantsDistinct();
    MapColumnsCells(Aged(s, p), BOOL_COLUMNS, BoolToken, m);
  }

  /** Classification adds `violation` at most, and keeps every other column. */
  lemma ClassifiedKeeps(c: Table, m: string)
    requires Valid(c) && DeriveViolation(c).Ok? && Has(c, m) && m != VIOLATION
    ensures Has(DeriveViolation(c).value, m) && Cells(DeriveViolation(c).value, m) == Cells(c, m)
  {
  }

  /** The last two steps rewrite the categorical columns and `needs_review`, and nothing else. */
  lemma FinishCells(x: Table, m: string)
    requires Valid(x) && Has(x, m) && m != NEEDS_REVIEW
    ensures Has(Finish(x), m)
    ensures Cells(Finish(x), m) ==
      if m in CATEGORICAL_COLUMNS then MapCells(Cells(x, m), FillUnknown) else Cells(x, m)
  {
    ConstantsDistinct();
    MapColumnsCells(x, CATEGORICAL_COLUMNS, FillUnknown, m);
  }

  lemma RawUntouchedBeforeClassify()
    ensures VIOLATION_RAW !in BOOL_COLUMNS
  {
  }

  /** Every step before classification keeps the names, adding at most
      `driver_age`, and leaves `violation_raw` alone. */
  lemma CoercedFacts(s: Table, p: Parsers)
    requires Valid(s)
    ensures ColumnNames(Coerced(s, p)) == ColumnNames(s) +
      (if !Has(s, DRIVER_AGE) && Has(s, DRIVER_AGE_RAW) then [DRIVER_AGE] else [])
    ensures Has(s, VIOLATION_RAW) ==> Cells(Coerced(s, p), VIOLATION_RAW) == Cells(s, VIOLATION_RAW)
  {
    ConstantNamesDiffer();
    RawUntouchedBeforeClassify();
    if Has(s, VIOLATION_RAW) {
      AgedKeeps(s, p, VIOLATION_RAW);
      CoercedCells(s, p, VIOLATION_RAW);
    }
  }

  // -----------------------------------------------------------------------
  // When the call raises

  /** Classification fails exactly when it runs and meets a present non-string. */
  lemma DeriveViolationFails(c: Table)
    requires Valid(c)
    ensures DeriveViolation(c).Err? <==>
      Has(c, VIOLATION_RAW) && !Has(c, VIOLATION) &&
      exists i :: 0 <= i < c.rows && NonText(Cells(c, VIOLATION_RAW)[i])
    ensures DeriveViolation(c).Err? ==>
      var i := DeriveViolation(c).error.row;
      i < c.rows && NonText(Cells(c, VIOLATION_RAW)[i]) &&
      forall k :: 0 <= k < i ==> !NonText(Cells(c, VIOLATION_RAW)[k])
  {
    if Has(c, VIOLATION_RAW) && !Has(c, VIOLATION) {
      ClassifyFails(Cells(c, VIOLATION_RAW));
    }
  }

  /** The boolean step adds at most `driver_age`, so whether the violation
      columns are there is decided on the renamed frame. */
  lemma CoercedHasViolationColumns(s: Table, p: Parsers)
    requires Valid(s)
    ensures Has(Coerced(s, p), VIOLATION_RAW) == Has(s, VIOLATION_RAW)
    ensures Has(Coerced(s, p), VIOLATION) == Has(s, VIOLATION)
  {
    CoercedFacts(s, p);
    AgePairKeepsViolation(ColumnNames(s), if !Has(s, DRIVER_AGE) && Has(s, DRIVER_AGE_RAW) then [DRIVER_AGE] else []);
  }

  lemma AgePairKeepsViolation(names: seq<string>, extra: seq<string>)
    requires extra == [] || extra == [DRIVER_AGE]
    ensures (VIOLATION_RAW in names + extra) == (VIOLATION_RAW in names)
    ensures (VIOLATION in names + extra) == (VIOLATION in names)
  {
    ConstantNamesDiffer();
    AppendedMembership(names, extra, VIOLATION_RAW);
    AppendedMembership(names, extra, VIOLATION);
  }

  /** `load_and_clean` raises exactly when `violation` is derived (there is a
      `violation_raw` column and no `violation` column) and some raw cell is
      present but not a string; the error names the first such row. */
  lemma CleanFailsExactly(s: Table, p: Parsers)
    requires Valid(s)
    ensures CleanRenamed(s, p).Err? <==>
      Has(s, VIOLATION_RAW) && !Has(s, VIOLATION) &&
      exists i :: 0 <= i < s.rows && NonText(Cells(s, VIOLATION_RAW)[i])
    ensures CleanRenamed(s, p).Err? ==>
      var i := CleanRenamed(s, p).error.row;
      i < s.rows && NonText(Cells(s, VIOLATION_RAW)[i]) &&
      forall k :: 0 <= k < i ==> !NonText(Cells(s, VIOLATION_RAW)[k])
  {
    CoercedFacts(s, p);
    CoercedHasViolationColumns(s, p);
    DeriveViolationFails(Coerced(s, p));
  }

  // -----------------------------------------------------------------------
  // The output schema

  /** The names after the last two steps. */
  lemma FinishNames(t7: Table)
    requires Valid(t7)
    ensures ColumnNames(Finish(t7)) == ColumnNames(t7) +
      (if Has(t7, STOP_DATE) && Has(t7, STOP_TIME) && !Has(t7, NEEDS_REVIEW) then [NEEDS_REVIEW] else [])
  {
  }

  lemma SchemaParts(names: seq<string>, coerced: seq<string>, classified: seq<string>)
    requires coerced == names + (if DRIVER_AGE !in names && DRIVER_AGE_RAW in names then [DRIVER_AGE] else [])
    requires classified ==
      if VIOLATION_RAW in coerced && VIOLATION !in coerced then coerced + [VIOLATION] else coerced
    ensures classified == names +
      ((if DRIVER_AGE !in names && DRIVER_AGE_RAW in names then [DRIVER_AGE] else []) +
       (if VIOLATION_RAW in names && VIOLATION !in names then [VIOLATION] else []))
  {
    ConstantNamesDiffer();
    var age: seq<string> := if DRIVER_AGE !in names && DRIVER_AGE_RAW in names then [DRIVER_AGE] else [];
    AppendedMembership(names, age, VIOLATION_RAW);
    AppendedMembership(names, age, VIOLATION);
  }

  /** The schema arithmetic on bare name lists: `names` after renaming,
      `coerced` after the age step, `classified` after the violation step. */
  lemma SchemaNames(names: seq<string>, coerced: seq<string>, classified: seq<string>)
    requires coerced == names + (if DRIVER_AGE !in names && DRIVER_AGE_RAW in names then [DRIVER_AGE] else [])
    requires classified ==
      if VIOLATION_RAW in coerced && VIOLATION !in coerced then coerced + [VIOLATION] else coerced
    ensures STOP_DATE in classified <==> STOP_DATE in names
    ensures STOP_TIME in classified <==> STOP_TIME in names
    ensures classified +
      (if STOP_DATE in classified && STOP_TIME in classified && NEEDS_REVIEW !in classified then [NEEDS_REVIEW] else [])
      == names + AddedColumns(names)
  {
    ConstantNamesDiffer();
    var age: seq<string> := if DRIVER_AGE !in names && DRIVER_AGE_RAW in names then [DRIVER_AGE] else [];
    var viol: seq<string> := if VIOLATION_RAW in names && VIOLATION !in names then [VIOLATION] else [];
    SchemaParts(names, coerced, classified);
    AppendedMembership(names, age + viol, STOP_DATE);
    AppendedMembership(names, age + viol, STOP_TIME);
    AppendedMembership(names, age + viol, NEEDS_REVIEW);
  }

  /** The classified frame, when classification succeeds. */
  function Classified(s: Table, p: Parsers): (r: Table)
    requires Valid(s) && CleanRenamed(s, p).Ok?
    ensures Valid(r) && r.rows == s.rows && CleanRenamed(s, p).value == Finish(r)
  {
    DeriveViolation(Coerced(s, p)).value
  }

  /** The output schema: the renamed columns in their order, followed by the
      derived columns the code appends, each only when it was not there. */
  lemma CleanSchema(s: Table, p: Parsers)
    requires Valid(s) && CleanRenamed(s, p).Ok?
    ensures ColumnNames(CleanRenamed(s, p).value) == ColumnNames(s) + AddedColumns(ColumnNames(s))
    ensures Has(Classified(s, p), STOP_DATE) == Has(s, STOP_DATE)
    ensures Has(Classified(s, p), STOP_TIME) == Has(s, STOP_TIME)
  {
    CoercedFacts(s, p);
    var t7 := Classified(s, p);
    FinishNames(t7);
    SchemaNames(ColumnNames(s), ColumnNames(Coerced(s, p)), ColumnNames(t7));
  }

  /** A column that classification does not create reaches the output as the
      boolean step left it, except for the categorical default. */
  lemma FromCoerced(s: Table, p: Parsers, m: string)
    requires Valid(s) && CleanRenamed(s, p).Ok?
    requires Has(Coerced(s, p), m) && m != VIOLATION && m != NEEDS_REVIEW
    ensures Has(CleanRenamed(s, p).value, m)
    ensures Cells(CleanRenamed(s, p).value, m) ==
      if m in CATEGORICAL_COLUMNS then MapCells(Cells(Coerced(s, p), m), FillUnknown) else Cells(Coerced(s, p), m)
  {
    ClassifiedKeeps(Coerced(s, p), m);
    FinishCells(Classified(s, p), m);
  }

  // -----------------------------------------------------------------------
  // Column by column

  /** What the steps do to a column `m` that no step creates: parse it when
      it is the date or the time, read it through the token table when it is
      boolean-like, default its missing cells when it is categorical. */
  function Rewrite(p: Parsers, m: string, cells: seq<Value>): seq<Value> {
    var parsed := if m == STOP_DATE then DateCells(p, cells) else if m == STOP_TIME then TimeCells(p, cells) else cells;
    var coerced := if m in BOOL_COLUMNS then MapCells(parsed, BoolToken) else parsed;
    if m in CATEGORICAL_COLUMNS then MapCells(coerced, FillUnknown) else coerced
  }

  lemma AgedCells(s: Table, p: Parsers, m: string)
    requires Valid(s) && Has(s, m) && m != DRIVER_AGE
    ensures Has(Aged(s, p), m)
    ensures Cells(Aged(s, p), m) ==
      if m == STOP_DATE then DateCells(p, Cells(s, m))
      else if m == STOP_TIME then TimeCells(p, Cells(s, m))
      else Cells(s, m)
  {
    ConstantNamesDiffer();
  }

  /** Each column the code reads but does not derive ends up rewritten by its own rule. */
  lemma KeptColumn(s: Table, p: Parsers, m: string)
    requires Valid(s) && CleanRenamed(s, p).Ok? && Has(s, m)
    requires m != DRIVER_AGE && m != VIOLATION && m != NEEDS_REVIEW
    ensures Has(CleanRenamed(s, p).value, m)
    ensures Cells(CleanRenamed(s, p).value, m) == Rewrite(p, m, Cells(s, m))
  {
    AgedCells(s, p, m);
    CoercedCells(s, p, m);
    FromCoerced(s, p, m);
  }

  lemma RewriteOfDate(p: Parsers, cells: seq<Value>)
    ensures Rewrite(p, STOP_DATE, cells) == DateCells(p, cells)
  {
    FixedNamesNotListed();
  }

  lemma RewriteOfTime(p: Parsers, cells: seq<Value>)
    ensures Rewrite(p, STOP_TIME, cells) == TimeCells(p, cells)
  {
    ConstantNamesDiffer();
    FixedNamesNotListed();
  }

  lemma RewriteOfBoolean(p: Parsers, m: string, cells: seq<Value>)
    requires m in BOOL_COLUMNS
    ensures Rewrite(p, m, cells) == MapCells(cells, BoolToken)
  {
    FixedNamesNotListed();
    ListsDisjoint(m);
  }

  lemma RewriteOfCategorical(p: Parsers, m: string, cells: seq<Value>)
    requires m in CATEGORICAL_COLUMNS
    ensures Rewrite(p, m, cells) == MapCells(cells, FillUnknown)
  {
    FixedNamesNotListed();
    ListsDisjoint(m);
  }

  lemma RewriteOfOther(p: Parsers, m: string, cells: seq<Value>)
    requires m !in TouchedColumns()
    ensures Rewrite(p, m, cells) == cells
  {
    UntouchedNames(m);
  }

  /** `out` holds, cell for cell, the date parsed from `input`: missing
      where the input is missing or cannot be parsed. */
  predicate DatesParsedFrom(p: Parsers, input: seq<Value>, out: seq<Value>) {
    |out| == |input| &&
    forall i :: 0 <= i < |input| ==>
      (out[i].Null? <==> input[i].Null? || p.date(input[i]).None?) &&
      (!out[i].Null? ==> out[i] == DateV(p.date(input[i]).value))
  }

  /** `out` holds, cell for cell, the time of day parsed from `input`. */
  predicate TimesParsedFrom(p: Parsers, input: seq<Value>, out: seq<Value>) {
    |out| == |input| &&
    forall i :: 0 <= i < |input| ==>
      (out[i].Null? <==> input[i].Null? || p.time(input[i]).None?) &&
      (!out[i].Null? ==> out[i] == TimeV(p.time(input[i]).value))
  }

  lemma DateCellsParsed(p: Parsers, cells: seq<Value>)
    ensures DatesParsedFrom(p, cells, DateCells(p, cells))
  {
  }

  lemma TimeCellsParsed(p: Parsers, cells: seq<Value>)
    ensures TimesParsedFrom(p, cells, TimeCells(p, cells))
  {
  }

  /** Each `stop_date` cell is the parsed date, or missing when the input is
      missing or cannot be parsed. */
  lemma CleanDates(s: Table, p: Parsers)
    requires Valid(s) && CleanRenamed(s, p).Ok? && Has(s, STOP_DATE)
    ensures Has(CleanRenamed(s, p).value, STOP_DATE)
    ensures DatesParsedFrom(p, Cells(s, STOP_DATE), Cells(CleanRenamed(s, p).value, STOP_DATE))
  {
    assert STOP_DATE != DRIVER_AGE && STOP_DATE != VIOLATION && STOP_DATE != NEEDS_REVIEW by {
      ConstantNamesDiffer();
    }
    KeptColumn(s, p, STOP_DATE);
    RewriteOfDate(p, Cells(s, STOP_DATE));
    DateCellsParsed(p, Cells(s, STOP_DATE));
  }

  /** Each `stop_time` cell is the parsed time of day, or missing when the
      input is missing or cannot be parsed. */
  lemma CleanTimes(s: Table, p: Parsers)
    requires Valid(s) && CleanRenamed(s, p).Ok? && Has(s, STOP_TIME)
    ensures Has(CleanRenamed(s, p).value, STOP_TIME)
    ensures TimesParsedFrom(p, Cells(s, STOP_TIME), Cells(CleanRenamed(s, p).value, STOP_TIME))
  {
    assert STOP_TIME != DRIVER_AGE && STOP_TIME != VIOLATION && STOP_TIME != NEEDS_REVIEW by {
      ConstantNamesDiffer();
    }
    KeptColumn(s, p, STOP_TIME);
    RewriteOfTime(p, Cells(s, STOP_TIME));
    TimeCellsParsed(p, Cells(s, STOP_TIME));
  }

  lemma AgeNames()
    ensures DRIVER_AGE != STOP_DATE && DRIVER_AGE != STOP_TIME && DRIVER_AGE != VIOLATION && DRIVER_AGE != NEEDS_REVIEW
    ensures DRIVER_AGE_RAW != STOP_DATE && DRIVER_AGE_RAW != STOP_TIME && DRIVER_AGE_RAW != DRIVER_AGE
    ensures DRIVER_AGE !in BOOL_COLUMNS && DRIVER_AGE !in CATEGORICAL_COLUMNS
  {
  }

  lemma AddedAge(names: seq<string>)
    ensures DRIVER_AGE in names + AddedColumns(names) <==> DRIVER_AGE in names || DRIVER_AGE_RAW in names
  {
    AgeNames();
  }

  lemma MappedCells(cells: seq<Value>, f: Value -> Value)
    ensures |MapCells(cells, f)| == |cells|
    ensures forall i :: 0 <= i < |cells| ==> MapCells(cells, f)[i] == f(cells[i])
  {
  }

  /** The age step, seen from the renamed frame. */
  lemma AgedAge(s: Table, p: Parsers)
    requires Valid(s) && (Has(s, DRIVER_AGE) || Has(s, DRIVER_AGE_RAW))
    ensures Has(Aged(s, p), DRIVER_AGE)
    ensures Cells(Aged(s, p), DRIVER_AGE) ==
      MapCells(Cells(s, if Has(s, DRIVER_AGE) then DRIVER_AGE else DRIVER_AGE_RAW), CoerceAge)
  {
    AgeNames();
  }

  /** `driver_age` is the coerced `driver_age` column when there is one, else
      the coerced `driver_age_raw` column when there is that, else absent. */
  lemma CleanAge(s: Table, p: Parsers)
    requires Valid(s) && CleanRenamed(s, p).Ok?
    ensures Has(CleanRenamed(s, p).value, DRIVER_AGE) <==> Has(s, DRIVER_AGE) || Has(s, DRIVER_AGE_RAW)
    ensures Has(s, DRIVER_AGE) ==> forall i :: 0 <= i < s.rows ==>
      Cells(CleanRenamed(s, p).value, DRIVER_AGE)[i] == CoerceAge(Cells(s, DRIVER_AGE)[i])
    ensures !Has(s, DRIVER_AGE) && Has(s, DRIVER_AGE_RAW) ==> forall i :: 0 <= i < s.rows ==>
      Cells(CleanRenamed(s, p).value, DRIVER_AGE)[i] == CoerceAge(Cells(s, DRIVER_AGE_RAW)[i])
  {
    CleanSchema(s, p);
    AddedAge(ColumnNames(s));
    if Has(s, DRIVER_AGE) || Has(s, DRIVER_AGE_RAW) {
      AgeNames();
      AgedAge(s, p);
      CoercedCells(s, p, DRIVER_AGE);
      FromCoerced(s, p, DRIVER_AGE);
      MappedCells(Cells(s, if Has(s, DRIVER_AGE) then DRIVER_AGE else DRIVER_AGE_RAW), CoerceAge);
    }
  }

  /** Each listed boolean-like column is read through the token table. */
  lemma CleanBooleans(s: Table, p: Parsers, m: string)
    requires Valid(s) && CleanRenamed(s, p).Ok? && m in BOOL_COLUMNS && Has(s, m)
    ensures Has(CleanRenamed(s, p).value, m)
    ensures forall i :: 0 <= i < s.rows ==> Cells(CleanRenamed(s, p).value, m)[i] == BoolToken(Cells(s, m)[i])
  {
    BooleanNames(m);
    KeptColumn(s, p, m);
    RewriteOfBoolean(p, m, Cells(s, m));
    MappedCells(Cells(s, m), BoolToken);
  }

  lemma ViolationNames()
    ensures VIOLATION != STOP_DATE && VIOLATION != STOP_TIME && VIOLATION != DRIVER_AGE && VIOLATION != NEEDS_REVIEW
    ensures VIOLATION !in BOOL_COLUMNS && VIOLATION !in CATEGORICAL_COLUMNS
  {
  }

  lemma AddedViolation(names: seq<string>)
    ensures VIOLATION in names + AddedColumns(names) <==> VIOLATION in names || VIOLATION_RAW in names
  {
    ViolationNames();
  }

  /** An existing `violation` column goes through every step untouched. */
  lemma ViolationKept(s: Table, p: Parsers)
    requires Valid(s) && CleanRenamed(s, p).Ok? && Has(s, VIOLATION)
    ensures Has(Classified(s, p), VIOLATION) && Cells(Classified(s, p), VIOLATION) == Cells(s, VIOLATION)
  {
    ViolationNames();
    AgedKeeps(s, p, VIOLATION);
    CoercedCells(s, p, VIOLATION);
  }

  /** Otherwise the classified frame holds the classes of the raw cells. */
  lemma ViolationDerived(s: Table, p: Parsers)
    requires Valid(s) && CleanRenamed(s, p).Ok? && !Has(s, VIOLATION) && Has(s, VIOLATION_RAW)
    ensures Has(Classified(s, p), VIOLATION)
    ensures ClassifyColumn(Cells(s, VIOLATION_RAW)) == Ok(Cells(Classified(s, p), VIOLATION))
  {
    CoercedFacts(s, p);
    CoercedHasViolationColumns(s, p);
  }

  /** An existing `violation` column is kept; otherwise `violation` holds the
      class of each `violation_raw` cell. */
  lemma CleanViolation(s: Table, p: Parsers)
    requires Valid(s) && CleanRenamed(s, p).Ok?
    ensures Has(CleanRenamed(s, p).value, VIOLATION) <==> Has(s, VIOLATION) || Has(s, VIOLATION_RAW)
    ensures Has(s, VIOLATION) ==> Cells(CleanRenamed(s, p).value, VIOLATION) == Cells(s, VIOLATION)
    ensures !Has(s, VIOLATION) && Has(s, VIOLATION_RAW) ==>
      ClassifiedFrom(Cells(s, VIOLATION_RAW), Cells(CleanRenamed(s, p).value, VIOLATION))
  {
    CleanSchema(s, p);
    AddedViolation(ColumnNames(s));
    if Has(s, VIOLATION) {
      ViolationKeptClean(s, p);
    } else if Has(s, VIOLATION_RAW) {
      ViolationDerivedClean(s, p);
    }
  }

  lemma ViolationKeptClean(s: Table, p: Parsers)
    requires Valid(s) && CleanRenamed(s, p).Ok? && Has(s, VIOLATION)
    ensures Has(CleanRenamed(s, p).value, VIOLATION)
    ensures Cells(CleanRenamed(s, p).value, VIOLATION) == Cells(s, VIOLATION)
  {
    ViolationNames();
    ViolationKept(s, p);
    FinishCells(Classified(s, p), VIOLATION);
  }

  lemma ViolationDerivedClean(s: Table, p: Parsers)
    requires Valid(s) && CleanRenamed(s, p).Ok? && !Has(s, VIOLATION) && Has(s, VIOLATION_RAW)
    ensures Has(CleanRenamed(s, p).value, VIOLATION)
    ensures ClassifiedFrom(Cells(s, VIOLATION_RAW), Cells(CleanRenamed(s, p).value, VIOLATION))
  {
    ViolationNames();
    ViolationDerived(s, p);
    FinishCells(Classified(s, p), VIOLATION);
    ColumnClassified(Cells(s, VIOLATION_RAW), Cells(CleanRenamed(s, p).value, VIOLATION));
  }

  lemma ColumnClassified(input: seq<Value>, out: seq<Value>)
    requires ClassifyColumn(input) == Ok(out)
    ensures ClassifiedFrom(input, out)
  {
  }

  /** `out` is `map_violation` applied to each cell of `input`, none of which raised. */
  predicate ClassifiedFrom(input: seq<Value>, out: seq<Value>) {
    |out| == |input| && forall i :: 0 <= i < |input| ==> MapViolation(input[i]) == Ok(out[i])
  }

  /** A missing raw violation is classified as missing, not as "Unknown":
      `violation` is not one of the defaulted columns. */
  lemma MissingViolationStaysMissing(s: Table, p: Parsers)
    requires Valid(s) && CleanRenamed(s, p).Ok? && !Has(s, VIOLATION) && Has(s, VIOLATION_RAW)
    ensures Has(CleanRenamed(s, p).value, VIOLATION)
    ensures forall i :: 0 <= i < s.rows && Cells(s, VIOLATION_RAW)[i].Null? ==>
      Cells(CleanRenamed(s, p).value, VIOLATION)[i].Null?
  {
    ViolationDerivedClean(s, p);
    ClassifiedMissing(Cells(s, VIOLATION_RAW), Cells(CleanRenamed(s, p).value, VIOLATION));
  }

  lemma ClassifiedMissing(input: seq<Value>, out: seq<Value>)
    requires ClassifiedFrom(input, out)
    ensures forall i :: 0 <= i < |input| && input[i].Null? ==> out[i].Null?
  {
  }

  /** In each listed categorical column, missing cells become "Unknown" and
      present cells are kept. */
  lemma CleanCategorical(s: Table, p: Parsers, m: string)
    requires Valid(s) && CleanRenamed(s, p).Ok? && m in CATEGORICAL_COLUMNS && Has(s, m)
    ensures Has(CleanRenamed(s, p).value, m)
    ensures forall i :: 0 <= i < s.rows ==>
      var v, w := Cells(s, m)[i], Cells(CleanRenamed(s, p).value, m)[i];
      w == if v.Null? then Str(UNKNOWN) else v
  {
    CategoricalNames(m);
    KeptColumn(s, p, m);
    RewriteOfCategorical(p, m, Cells(s, m));
    FilledCells(Cells(s, m));
  }

  lemma FilledCells(cells: seq<Value>)
    ensures |MapCells(cells, FillUnknown)| == |cells|
    ensures forall i :: 0 <= i < |cells| ==>
      MapCells(cells, FillUnknown)[i] == if cells[i].Null? then Str(UNKNOWN) else cells[i]
  {
    MappedCells(cells, FillUnknown);
  }

  lemma ReviewNames()
    ensures NEEDS_REVIEW != STOP_DATE && NEEDS_REVIEW != STOP_TIME && NEEDS_REVIEW != DRIVER_AGE && NEEDS_REVIEW != VIOLATION
    ensures NEEDS_REVIEW !in BOOL_COLUMNS && NEEDS_REVIEW !in CATEGORICAL_COLUMNS
    ensures STOP_DATE !in CATEGORICAL_COLUMNS && STOP_TIME !in CATEGORICAL_COLUMNS
  {
  }

  /** Each flag is set exactly when both the date and the time of its row are missing. */
  predicate FlaggedFrom(dates: seq<Value>, times: seq<Value>, flags: seq<Value>) {
    |flags| == |dates| && |flags| == |times| &&
    forall i :: 0 <= i < |flags| ==> flags[i] == Bool(dates[i].Null? && times[i].Null?)
  }

  lemma ReviewFlagsFlagged(dates: seq<Value>, times: seq<Value>)
    requires |dates| == |times|
    ensures FlaggedFrom(dates, times, ReviewFlags(dates, times))
  {
  }

  /** The flag the last step writes, read against the date and time columns it leaves. */
  lemma FinishFlag(x: Table)
    requires Valid(x) && Has(x, STOP_DATE) && Has(x, STOP_TIME)
    ensures var o := Finish(x);
      Has(o, NEEDS_REVIEW) && Has(o, STOP_DATE) && Has(o, STOP_TIME) &&
      FlaggedFrom(Cells(o, STOP_DATE), Cells(o, STOP_TIME), Cells(o, NEEDS_REVIEW))
  {
    var m := MapColumns(x, CATEGORICAL_COLUMNS, FillUnknown);
    ReviewNames();
    ConstantsDistinct();
    MapColumnsCells(x, CATEGORICAL_COLUMNS, FillUnknown, STOP_DATE);
    MapColumnsCells(x, CATEGORICAL_COLUMNS, FillUnknown, STOP_TIME);
    ReviewFlagsFlagged(Cells(m, STOP_DATE), Cells(m, STOP_TIME));
  }

  /** Without a date or a time column, the last step leaves `needs_review` alone. */
  lemma FinishKeepsFlag(x: Table)
    requires Valid(x) && !(Has(x, STOP_DATE) && Has(x, STOP_TIME)) && Has(x, NEEDS_REVIEW)
    ensures Has(Finish(x), NEEDS_REVIEW) && Cells(Finish(x), NEEDS_REVIEW) == Cells(x, NEEDS_REVIEW)
  {
    ReviewNames();
    ConstantsDistinct();
    MapColumnsCells(x, CATEGORICAL_COLUMNS, FillUnknown, NEEDS_REVIEW);
  }

  /** With both a date and a time column, `needs_review` is true exactly in
      the rows where both are missing after parsing; without them, an
      existing `needs_review` column is kept. */
  lemma CleanReviewFlag(s: Table, p: Parsers)
    requires Valid(s) && CleanRenamed(s, p).Ok?
    ensures Has(s, STOP_DATE) && Has(s, STOP_TIME) ==>
      var o := CleanRenamed(s, p).value;
      Has(o, NEEDS_REVIEW) && Has(o, STOP_DATE) && Has(o, STOP_TIME) &&
      FlaggedFrom(Cells(o, STOP_DATE), Cells(o, STOP_TIME), Cells(o, NEEDS_REVIEW))
    ensures !(Has(s, STOP_DATE) && Has(s, STOP_TIME)) && Has(s, NEEDS_REVIEW) ==>
      Cells(CleanRenamed(s, p).value, NEEDS_REVIEW) == Cells(s, NEEDS_REVIEW)
  {
    CleanSchema(s, p);
    var t7 := Classified(s, p);
    if Has(s, STOP_DATE) && Has(s, STOP_TIME) {
      FinishFlag(t7);
    } else if Has(s, NEEDS_REVIEW) {
      ReviewNames();
      AgedKeeps(s, p, NEEDS_REVIEW);
      CoercedCells(s, p, NEEDS_REVIEW);
      ClassifiedKeeps(Coerced(s, p), NEEDS_REVIEW);
      FinishKeepsFlag(t7);
    }
  }

  /** A column no step names reaches the output unchanged. */
  lemma CleanUntouched(s: Table, p: Parsers, m: string)
    requires Valid(s) && CleanRenamed(s, p).Ok? && Has(s, m) && m !in TouchedColumns()
    ensures Has(CleanRenamed(s, p).value, m) && Cells(CleanRenamed(s, p).value, m) == Cells(s, m)
  {
    UntouchedNames(m);
    KeptColumn(s, p, m);
    RewriteOfOther(p, m, Cells(s, m));
  }

  lemma UntouchedNames(m: string)
    requires m !in TouchedColumns()
    ensures m != STOP_DATE && m != STOP_TIME && m != DRIVER_AGE && m != VIOLATION && m != NEEDS_REVIEW
    ensures m !in BOOL_COLUMNS && m !in CATEGORICAL_COLUMNS
  {
  }

  // -----------------------------------------------------------------------
  // Pruning and renaming

  /** What a renamed column is made of. */
  lemma RenamedFromInput(t: Table, col: Column)
    requires Rectangular(t) && col in Renamed(t).columns
    ensures exists c :: c in t.columns && !AllMissing(c.cells) && col == Column(NormalizeName(c.name), c.cells)
  {
    var kept := KeepPresent(t.columns);
    KeepPresentMembers(t.columns);
    var r := Renamed(t).columns;
    var j :| 0 <= j < |r| && r[j] == col;
    assert kept[j] in kept;
  }

  /** Every present input column appears, renamed. */
  lemma InputRenamed(t: Table, c: Column)
    requires Rectangular(t) && c in t.columns && !AllMissing(c.cells)
    ensures Column(NormalizeName(c.name), c.cells) in Renamed(t).columns
  {
    var kept := KeepPresent(t.columns);
    KeepPresentMembers(t.columns);
    var r := Renamed(t).columns;
    assert c in kept;
    var j :| 0 <= j < |kept| && kept[j] == c;
    assert r[j] == Column(NormalizeName(c.name), c.cells);
  }

  /** The renamed frame holds, for each input column with at least one
      present cell, that column under its stripped, lower-cased name, and
      nothing else. */
  lemma RenamedColumns(t: Table)
    requires Rectangular(t)
    ensures forall col :: col in Renamed(t).columns <==>
      exists c :: c in t.columns && !AllMissing(c.cells) && col == Column(NormalizeName(c.name), c.cells)
  {
    forall col | col in Renamed(t).columns
      ensures exists c :: c in t.columns && !AllMissing(c.cells) && col == Column(NormalizeName(c.name), c.cells)
    {
      RenamedFromInput(t, col);
    }
    forall c | c in t.columns && !AllMissing(c.cells)
      ensures Column(NormalizeName(c.name), c.cells) in Renamed(t).columns
    {
      InputRenamed(t, c);
    }
  }

  /** The normalised name of an all-missing input column is not a name of
      the renamed frame, unless some present column normalises to it too. */
  lemma DroppedName(t: Table, c: Column)
    requires Rectangular(t) && c in t.columns && AllMissing(c.cells)
    requires forall d :: d in t.columns && !AllMissing(d.cells) ==> NormalizeName(d.name) != NormalizeName(c.name)
    ensures NormalizeName(c.name) !in ColumnNames(Renamed(t))
  {
    var r := Renamed(t).columns;
    if NormalizeName(c.name) in ColumnNames(Renamed(t)) {
      var j :| 0 <= j < |r| && ColumnNames(Renamed(t))[j] == NormalizeName(c.name);
      RenamedFromInput(t, r[j]);
    }
  }

  /** Pruning runs first, so no later step brings back an all-missing input
      column: its name is in the output only when the code derives a column
      of that name (`driver_age`, `violation` or `needs_review`). In
      particular an all-missing categorical column is dropped, not filled
      with "Unknown". */
  lemma AllMissingColumnDropped(t: Table, p: Parsers, c: Column)
    requires Cleanable(t) && Clean(t, p).Ok? && c in t.columns && AllMissing(c.cells)
    requires forall d :: d in t.columns && !AllMissing(d.cells) ==> NormalizeName(d.name) != NormalizeName(c.name)
    ensures NormalizeName(c.name) in ColumnNames(Clean(t, p).value) <==>
      NormalizeName(c.name) in AddedColumns(ColumnNames(Renamed(t)))
    ensures NormalizeName(c.name) in CATEGORICAL_COLUMNS ==> NormalizeName(c.name) !in ColumnNames(Clean(t, p).value)
  {
    var n := NormalizeName(c.name);
    var names := ColumnNames(Renamed(t));
    RenamedValid(t);
    DroppedName(t, c);
    CleanSchema(Renamed(t), p);
    OnlyAddedName(names, n);
  }

  /** A name missing from the renamed frame can only come from the derived columns. */
  lemma OnlyAddedName(names: seq<string>, n: string)
    requires n !in names
    ensures n in names + AddedColumns(names) <==> n in AddedColumns(names)
    ensures n in CATEGORICAL_COLUMNS ==> n !in names + AddedColumns(names)
  {
    if n in CATEGORICAL_COLUMNS {
      CategoricalNames(n);
    }
  }

  lemma LowerKeepsSpace(s: string)
    ensures forall k :: 0 <= k < |s| ==> IsSpace(Lower(s)[k]) == IsSpace(s[k])
  {
  }

  lemma LowerIdempotent(s: string)
    ensures Lower(Lower(s)) == Lower(s)
  {
  }

  /** A normalised name is normalised again to itself, so renaming a cleaned
      frame's columns changes nothing. */
  lemma NormalizeNameIdempotent(name: string)
    ensures NormalizeName(NormalizeName(name)) == NormalizeName(name)
  {
    var n := NormalizeName(name);
    StripFacts(name);
    LowerKeepsSpace(Strip(name));
    assert Stripped(n);
    StripOfStripped(n);
    LowerIdempotent(Strip(name));
  }
}
