/**
 * The database side of the str_app.py dashboard: the parameterised query the
 * sidebar filters build, the choice between that query and the default one,
 * and the INSERT statement and insert count of `insert_dataframe_to_table`.
 *
 * The database itself is not modelled: running a query is out of scope, and
 * whether `cursor.execute` raises on a row is a parameter (an oracle).
 */
module Dashboard {
  import opened Values
  import opened Text
  import opened Tables

  /** A value bound to a `%s` placeholder. */
  datatype Param = DateP(date: Date) | TextP(text: string) | BoolP(flag: bool)

  /** The values of the sidebar widgets. */
  datatype Filters = Filters(
    startDate: Date, endDate: Date,
    gender: string, violationContains: string, plate: string, searchFlag: string)

  /** The optional filters, in the order the code tests them. */
  datatype Filter = Gender | Violation | Plate | Search

  /** The marker the database driver replaces by one parameter. */
  const PLACEHOLDER := "%s"

  // The query texts, written as the concatenation of their parts.
  const TABLE_SQL := "SELECT * FROM checkpost_stops"
  const RANGE_SQL := " WHERE stop_date BETWEEN "
  const NEWEST_SQL := " ORDER BY stop_date DESC," + " stop_time DESC"
  const BASE_SQL := TABLE_SQL + RANGE_SQL + PLACEHOLDER + " AND " + PLACEHOLDER
  const ORDER_SQL := NEWEST_SQL + " LIMIT 1000"
  const DEFAULT_SQL := TABLE_SQL + NEWEST_SQL + " LIMIT 200"

  // -----------------------------------------------------------------------
  // Placeholders

  /** The number of `%s` markers in `s`. */
  function Placeholders(s: string): nat {
    if |s| < 2 then 0
    else (if s[0] == '%' && s[1] == 's' then 1 else 0) + Placeholders(s[1..])
  }

  /** Text without `%` holds no placeholder. */
  lemma {:induction false} NoPercentNoPlaceholder(s: string)
    requires '%' !in s
    ensures Placeholders(s) == 0
  {
    if |s| >= 2 {
      assert s[0] in s;
      assert '%' !in s[1..] by {
        forall k | 0 <= k < |s[1..]|
          ensures s[1..][k] != '%'
        {
          assert s[1..][k] == s[k + 1] && s[k + 1] in s;
        }
      }
      NoPercentNoPlaceholder(s[1..]);
    }
  }

  /** Placeholders add up over a concatenation unless a `%` at the end of the
      first part meets an `s` at the start of the second. */
  lemma {:induction false} PlaceholdersAppend(a: string, b: string)
    requires !(a != [] && b != [] && a[|a| - 1] == '%' && b[0] == 's')
    ensures Placeholders(a + b) == Placeholders(a) + Placeholders(b)
  {
    if a == [] {
      assert a + b == b;
    } else if |a| == 1 {
      assert (a + b)[1..] == b;
    } else {
      assert (a + b)[1..] == a[1..] + b;
      PlaceholdersAppend(a[1..], b);
    }
  }

  /** `%`-free text in front adds no placeholder. */
  lemma PlaceholdersAfterText(a: string, b: string)
    requires '%' !in a
    ensures Placeholders(a + b) == Placeholders(b)
  {
    if a != [] {
      assert a[|a| - 1] in a;
    }
    NoPercentNoPlaceholder(a);
    PlaceholdersAppend(a, b);
  }

  lemma NoPercentAppend(a: string, b: string)
    requires '%' !in a && '%' !in b
    ensures '%' !in a + b
  {
  }

  lemma PlaceholderOne()
    ensures Placeholders(PLACEHOLDER) == 1 && PLACEHOLDER[0] == '%'
  {
  }

  lemma RangePieces()
    ensures '%' !in TABLE_SQL && '%' !in RANGE_SQL && '%' !in " AND "
  {
  }

  lemma OrderPieces()
    ensures '%' !in " ORDER BY stop_date DESC," && '%' !in " stop_time DESC"
  {
  }

  lemma LimitPieces()
    ensures '%' !in " LIMIT 1000" && '%' !in " LIMIT 200"
  {
  }

  lemma NewestNoPercent()
    ensures '%' !in NEWEST_SQL && NEWEST_SQL[0] == ' '
  {
    OrderPieces();
    NoPercentAppend(" ORDER BY stop_date DESC,", " stop_time DESC");
  }

  /** The date range holds the two date placeholders. */
  lemma BasePlaceholders()
    ensures Placeholders(BASE_SQL) == 2
  {
    RangePieces();
    PlaceholderOne();
    NoPercentAppend(TABLE_SQL, RANGE_SQL);
    var head := TABLE_SQL + RANGE_SQL;
    PlaceholdersAfterText(" AND ", PLACEHOLDER);
    PlaceholdersAppend(PLACEHOLDER, " AND " + PLACEHOLDER);
    PlaceholdersAfterText(head, PLACEHOLDER + (" AND " + PLACEHOLDER));
    assert BASE_SQL == head + (PLACEHOLDER + (" AND " + PLACEHOLDER));
  }

  lemma OrderFacts()
    ensures Placeholders(ORDER_SQL) == 0 && ORDER_SQL != [] && ORDER_SQL[0] == ' '
  {
    LimitPieces();
    NewestNoPercent();
    NoPercentAppend(NEWEST_SQL, " LIMIT 1000");
    NoPercentNoPlaceholder(ORDER_SQL);
  }

  lemma DefaultPlaceholders()
    ensures Placeholders(DEFAULT_SQL) == 0
  {
    RangePieces();
    LimitPieces();
    NewestNoPercent();
    NoPercentAppend(TABLE_SQL, NEWEST_SQL);
    NoPercentAppend(TABLE_SQL + NEWEST_SQL, " LIMIT 200");
    NoPercentNoPlaceholder(DEFAULT_SQL);
  }

  // -----------------------------------------------------------------------
  // The filter query: specification

  /** The text of each filter's `AND` clause before its placeholder. */
  function ClauseHead(k: Filter): string {
    match k
    case Gender => " AND driver_gender = "
    case Violation => " AND violation LIKE "
    case Plate => " AND vehicle_number = "
    case Search => " AND search_conducted = "
  }

  /** The one `AND` clause each filter contributes. */
  function ClauseSql(k: Filter): string {
    ClauseHead(k) + PLACEHOLDER
  }

  /** The value each filter binds to its placeholder. */
  function ParamOf(f: Filters, k: Filter): Param {
    match k
    case Gender => TextP(f.gender)
    case Violation => TextP("%" + Strip(f.violationContains) + "%")
    case Plate => TextP(Strip(f.plate))
    case Search => BoolP(f.searchFlag == "True")
  }

  /** Which of the optional filters are set. */
  datatype Switches = Switches(gender: bool, violation: bool, plate: bool, search: bool)

  /** A gender other than "All", violation text or a plate that is more than
      whitespace, a search flag of "True" or "False". */
  function SwitchesOf(f: Filters): Switches {
    Switches(
      f.gender != "All",
      Strip(f.violationContains) != "",
      Strip(f.plate) != "",
      f.searchFlag == "True" || f.searchFlag == "False")
  }

  predicate On(w: Switches, k: Filter) {
    match k
    case Gender => w.gender
    case Violation => w.violation
    case Plate => w.plate
    case Search => w.search
  }

  /** Whether a filter takes part. */
  predicate Active(f: Filters, k: Filter) {
    On(SwitchesOf(f), k)
  }

  function Rank(k: Filter): nat {
    match k
    case Gender => 0
    case Violation => 1
    case Plate => 2
    case Search => 3
  }

  /** Each filter ranks above the ones before it. */
  predicate Ranked(ks: seq<Filter>) {
    forall i, j :: 0 <= i < j < |ks| ==> Rank(ks[i]) < Rank(ks[j])
  }

  /** `[k]` when the filter is switched on, else nothing. */
  function IfOn(w: Switches, k: Filter): seq<Filter> {
    if On(w, k) then [k] else []
  }

  /** The filters switched on, in the order the code tests them. */
  function Chosen(w: Switches): seq<Filter> {
    IfOn(w, Gender) + IfOn(w, Violation) + IfOn(w, Plate) + IfOn(w, Search)
  }

  /** The filters that take part. */
  function ActiveFilters(f: Filters): seq<Filter> {
    Chosen(SwitchesOf(f))
  }

  /** A filter stays out exactly when its widget holds its neutral value:
      gender "All", violation text or plate of nothing but whitespace, a
      search flag other than "True" and "False". */
  lemma InactiveFilters(f: Filters)
    ensures !Active(f, Gender) <==> f.gender == "All"
    ensures !Active(f, Violation) <==> AllSpace(f.violationContains)
    ensures !Active(f, Plate) <==> AllSpace(f.plate)
    ensures !Active(f, Search) <==> f.searchFlag != "True" && f.searchFlag != "False"
  {
    StripEmptyIff(f.violationContains);
    StripEmptyIff(f.plate);
  }

  /** A query text with the values for its placeholders. */
  datatype Built = Built(sql: string, params: seq<Param>)

  /** The date range with its two dates. */
  function RangeQuery(f: Filters): Built {
    Built(BASE_SQL, [DateP(f.startDate), DateP(f.endDate)])
  }

  /** One filter's step: when it takes part, its clause goes onto the text and
      its value onto the parameters; otherwise nothing changes. */
  function AddFilter(f: Filters, q: Built, k: Filter): Built {
    if Active(f, k) then Built(q.sql + ClauseSql(k), q.params + [ParamOf(f, k)]) else q
  }

  /** The filters applied in the order the code tests them. */
  function Filtered(f: Filters): Built {
    AddFilter(f, AddFilter(f, AddFilter(f, AddFilter(f, RangeQuery(f), Gender), Violation), Plate), Search)
  }

  /** The filtered query: the date range and the active filters' clauses,
      then the ordering and the limit. */
  function FilterSql(f: Filters): string {
    Filtered(f).sql + ORDER_SQL
  }

  function FilterParams(f: Filters): seq<Param> {
    Filtered(f).params
  }

  // -----------------------------------------------------------------------
  // The filter query: the code

  /** Lines 148-164 of str_app.py: grow the query text and the parameter
      list one active filter at a time. */
  method BuildFilterQuery(f: Filters) returns (sql: string, params: seq<Param>)
    ensures sql == FilterSql(f) && params == FilterParams(f)
  {
    sql := BASE_SQL;
    params := [DateP(f.startDate), DateP(f.endDate)];
    if f.gender != "All" {
      sql := sql + ClauseSql(Gender);
      params := params + [TextP(f.gender)];
    }
    ghost var q := AddFilter(f, RangeQuery(f), Gender);
    assert sql == q.sql && params == q.params;
    if Strip(f.violationContains) != "" {
      sql := sql + ClauseSql(Violation);
      params := params + [TextP("%" + Strip(f.violationContains) + "%")];
    }
    q := AddFilter(f, q, Violation);
    assert sql == q.sql && params == q.params;
    if Strip(f.plate) != "" {
      sql := sql + ClauseSql(Plate);
      params := params + [TextP(Strip(f.plate))];
    }
    q := AddFilter(f, q, Plate);
    assert sql == q.sql && params == q.params;
    if f.searchFlag == "True" || f.searchFlag == "False" {
      sql := sql + ClauseSql(Search);
      params := params + [BoolP(f.searchFlag == "True")];
    }
    q := AddFilter(f, q, Search);
    assert sql == q.sql && params == q.params;
    sql := sql + ORDER_SQL;
  }

  // -----------------------------------------------------------------------
  // The filter query: properties

  /** The filter at position `i` of the chosen ones ranks at least `i`, and
      each one after it ranks higher. */
  lemma ChosenRanks(w: Switches, i: nat)
    requires i < |Chosen(w)|
    ensures i <= Rank(Chosen(w)[i]) <= 3 - (|Chosen(w)| - 1 - i)
  {
  }

  /** Exactly the switched-on filters are chosen, in rank order. */
  lemma ChosenFacts(w: Switches)
    ensures forall k :: k in Chosen(w) <==> On(w, k)
    ensures Ranked(Chosen(w))
  {
    var ks := Chosen(w);
    forall i, j | 0 <= i < j < |ks|
      ensures Rank(ks[i]) < Rank(ks[j])
    {
      ChosenRanks(w, i);
      ChosenRanks(w, j);
    }
  }

  /** Every active filter takes part, no inactive one does, and they come in
      the order gender, violation, plate, search flag, each at most once. */
  lemma ActiveFiltersFacts(f: Filters)
    ensures forall k :: k in ActiveFilters(f) <==> Active(f, k)
    ensures Ranked(ActiveFilters(f))
  {
    ChosenFacts(SwitchesOf(f));
  }

  /** The clauses of the filters `ks`, one after the other. */
  function ClausesOf(ks: seq<Filter>): string {
    if ks == [] then "" else ClauseSql(ks[0]) + ClausesOf(ks[1..])
  }

  /** The values of the filters `ks`, in the same order. */
  function ValuesOf(f: Filters, ks: seq<Filter>): (ps: seq<Param>)
    ensures |ps| == |ks| && forall i :: 0 <= i < |ks| ==> ps[i] == ParamOf(f, ks[i])
  {
    seq(|ks|, i requires 0 <= i < |ks| => ParamOf(f, ks[i]))
  }

  lemma {:induction false} ClausesOfAppend(a: seq<Filter>, b: seq<Filter>)
    ensures ClausesOf(a + b) == ClausesOf(a) + ClausesOf(b)
  {
    if a == [] {
      assert a + b == b;
    } else {
      assert (a + b)[1..] == a[1..] + b;
      ClausesOfAppend(a[1..], b);
    }
  }

  /** One step adds the clauses of the filters it lets through. */
  lemma AddFilterSql(f: Filters, q: Built, k: Filter)
    ensures AddFilter(f, q, k).sql == q.sql + ClausesOf(IfOn(SwitchesOf(f), k))
  {
    if Active(f, k) {
      assert ClausesOf([k]) == ClauseSql(k) + ClausesOf([]);
    }
  }

  /** One step adds the values of the filters it lets through. */
  lemma AddFilterParams(f: Filters, q: Built, k: Filter)
    ensures AddFilter(f, q, k).params == q.params + ValuesOf(f, IfOn(SwitchesOf(f), k))
  {
    if Active(f, k) {
      assert ValuesOf(f, [k]) == [ParamOf(f, k)];
    }
  }

  lemma ValuesOfAppend(f: Filters, a: seq<Filter>, b: seq<Filter>)
    ensures ValuesOf(f, a + b) == ValuesOf(f, a) + ValuesOf(f, b)
  {
    var l, r := ValuesOf(f, a + b), ValuesOf(f, a) + ValuesOf(f, b);
    forall i | 0 <= i < |l|
      ensures l[i] == r[i]
    {
      if i < |a| {
        assert (a + b)[i] == a[i];
      } else {
        assert (a + b)[i] == b[i - |a|];
      }
    }
  }

  /** Regrouping four appended pieces whose joined parts are known. */
  lemma Regroup4<T>(s: seq<T>, x: seq<T>, y: seq<T>, z: seq<T>, w: seq<T>, xy: seq<T>, xyz: seq<T>, xyzw: seq<T>)
    requires xy == x + y && xyz == xy + z && xyzw == xyz + w
    ensures s + x + y + z + w == s + xyzw
  {
  }

  /** Four steps in a row add the clauses of all the filters they let
      through, in order. */
  lemma AddClauses4(sql: string, a: seq<Filter>, b: seq<Filter>, c: seq<Filter>, d: seq<Filter>)
    ensures sql + ClausesOf(a) + ClausesOf(b) + ClausesOf(c) + ClausesOf(d) == sql + ClausesOf(a + b + c + d)
  {
    ClausesOfAppend(a, b);
    ClausesOfAppend(a + b, c);
    ClausesOfAppend(a + b + c, d);
    Regroup4(sql, ClausesOf(a), ClausesOf(b), ClausesOf(c), ClausesOf(d),
      ClausesOf(a + b), ClausesOf(a + b + c), ClausesOf(a + b + c + d));
  }

  /** Four steps in a row add the values of all the filters they let
      through, in order. */
  lemma AddValues4(f: Filters, params: seq<Param>, a: seq<Filter>, b: seq<Filter>, c: seq<Filter>, d: seq<Filter>)
    ensures params + ValuesOf(f, a) + ValuesOf(f, b) + ValuesOf(f, c) + ValuesOf(f, d) == params + ValuesOf(f, a + b + c + d)
  {
    ValuesOfAppend(f, a, b);
    ValuesOfAppend(f, a + b, c);
    ValuesOfAppend(f, a + b + c, d);
    Regroup4(params, ValuesOf(f, a), ValuesOf(f, b), ValuesOf(f, c), ValuesOf(f, d),
      ValuesOf(f, a + b), ValuesOf(f, a + b + c), ValuesOf(f, a + b + c + d));
  }

  /** The filtered query is the date range, the clause of each active filter
      in order, and the ordering; its parameters are the two dates and the
      value of each active filter in the same order. */
  lemma FilteredShape(f: Filters)
    ensures FilterSql(f) == BASE_SQL + ClausesOf(ActiveFilters(f)) + ORDER_SQL
    ensures FilterParams(f) == [DateP(f.startDate), DateP(f.endDate)] + ValuesOf(f, ActiveFilters(f))
  {
    var w := SwitchesOf(f);
    var q0 := RangeQuery(f);
    var q1 := AddFilter(f, q0, Gender);
    var q2 := AddFilter(f, q1, Violation);
    var q3 := AddFilter(f, q2, Plate);
    AddFilterSql(f, q0, Gender);
    AddFilterSql(f, q1, Violation);
    AddFilterSql(f, q2, Plate);
    AddFilterSql(f, q3, Search);
    AddFilterParams(f, q0, Gender);
    AddFilterParams(f, q1, Violation);
    AddFilterParams(f, q2, Plate);
    AddFilterParams(f, q3, Search);
    AddClauses4(BASE_SQL, IfOn(w, Gender), IfOn(w, Violation), IfOn(w, Plate), IfOn(w, Search));
    AddValues4(f, q0.params, IfOn(w, Gender), IfOn(w, Violation), IfOn(w, Plate), IfOn(w, Search));
  }

  /** Each clause starts with a space and holds one placeholder. */
  lemma ClausePlaceholder(k: Filter)
    ensures Placeholders(ClauseSql(k)) == 1
    ensures ClauseSql(k) != [] && ClauseSql(k)[0] == ' '
  {
    assert '%' !in ClauseHead(k) && ClauseHead(k)[0] == ' ';
    PlaceholderOne();
    PlaceholdersAfterText(ClauseHead(k), PLACEHOLDER);
  }

  /** The clauses hold one placeholder per filter. */
  lemma {:induction false} ClausesPlaceholders(ks: seq<Filter>)
    ensures Placeholders(ClausesOf(ks)) == |ks|
    ensures ClausesOf(ks) == [] || ClausesOf(ks)[0] == ' '
  {
    if ks != [] {
      ClausePlaceholder(ks[0]);
      ClausesPlaceholders(ks[1..]);
      PlaceholdersAppend(ClauseSql(ks[0]), ClausesOf(ks[1..]));
    }
  }

  /** Placeholders of the three parts of the filtered query add up. */
  lemma ThreePartPlaceholders(base: string, clauses: string, order: string)
    requires clauses == [] || clauses[0] == ' '
    requires order != [] && order[0] == ' '
    ensures Placeholders(base + clauses + order) == Placeholders(base) + Placeholders(clauses) + Placeholders(order)
  {
    PlaceholdersAppend(base, clauses);
    PlaceholdersAppend(base + clauses, order);
  }

  /** The filtered query has exactly as many placeholders as parameters. */
  lemma FilterPlaceholdersMatch(f: Filters)
    ensures Placeholders(FilterSql(f)) == |FilterParams(f)|
  {
    FilteredShape(f);
    BasePlaceholders();
    ClausesPlaceholders(ActiveFilters(f));
    OrderFacts();
    ThreePartPlaceholders(BASE_SQL, ClausesOf(ActiveFilters(f)), ORDER_SQL);
  }

  /** The filtered query starts with the date range and ends with the ordering
      and the 1000-row limit; its parameters start with the two dates, and
      the one after them at position `2 + i` is the value of the `i`-th
      active filter. */
  lemma FilterQueryShape(f: Filters)
    ensures BASE_SQL <= FilterSql(f)
    ensures |ORDER_SQL| <= |FilterSql(f)| && FilterSql(f)[|FilterSql(f)| - |ORDER_SQL|..] == ORDER_SQL
    ensures |FilterParams(f)| == 2 + |ActiveFilters(f)|
    ensures FilterParams(f)[..2] == [DateP(f.startDate), DateP(f.endDate)]
    ensures forall i :: 0 <= i < |ActiveFilters(f)| ==> FilterParams(f)[2 + i] == ParamOf(f, ActiveFilters(f)[i])
  {
    FilteredShape(f);
  }

  // -----------------------------------------------------------------------
  // Which query runs

  /** Lines 168-171: the filtered query when the button was pressed or the
      violation text is set, else the fixed query with no parameters. */
  function ChooseQuery(run: bool, f: Filters): (string, seq<Param>) {
    if run || Strip(f.violationContains) != "" then (FilterSql(f), FilterParams(f))
    else (DEFAULT_SQL, [])
  }

  /** The filtered query runs exactly when the button was pressed or the
      violation text is set; otherwise the default query runs. */
  lemma ChooseQueryIff(run: bool, f: Filters)
    ensures ChooseQuery(run, f) == (FilterSql(f), FilterParams(f)) <==> run || Strip(f.violationContains) != ""
    ensures ChooseQuery(run, f) == (DEFAULT_SQL, []) <==> !run && Strip(f.violationContains) == ""
  {
    FilterPlaceholdersMatch(f);
    DefaultPlaceholders();
    assert FilterSql(f) != DEFAULT_SQL;
  }

  // -----------------------------------------------------------------------
  // The INSERT statement

  /** `sep.join(items)`. */
  function Join(items: seq<string>, sep: string): string {
    if items == [] then ""
    else if |items| == 1 then items[0]
    else items[0] + sep + Join(items[1..], sep)
  }

  /** `[s] * n`. */
  function Repeat(s: string, n: nat): (r: seq<string>)
    ensures |r| == n && forall i :: 0 <= i < n ==> r[i] == s
  {
    if n == 0 then [] else [s] + Repeat(s, n - 1)
  }

  /** Lines 36-38: the column list in frame order and one placeholder per column. */
  function InsertStatement(table: string, cols: seq<string>): string {
    "INSERT INTO " + table + " (" + Join(cols, ", ") + ") VALUES (" + Join(Repeat(PLACEHOLDER, |cols|), ", ") + ")"
  }

  /** Splitting at `", "`: the inverse of `Join(_, ", ")` on names without commas. */
  function SplitList(s: string): (r: seq<string>)
    ensures |r| >= 1
  {
    if s == [] then [""]
    else if |s| >= 2 && s[0] == ',' && s[1] == ' ' then [""] + SplitList(s[2..])
    else
      var rest := SplitList(s[1..]);
      [[s[0]] + rest[0]] + rest[1..]
  }

  lemma {:induction false} SplitName(name: string, tail: string)
    requires ',' !in name
    ensures tail == [] ==> SplitList(name + tail) == [name]
    ensures tail != [] && |tail| >= 2 && tail[..2] == ", " ==>
      SplitList(name + tail) == [name] + SplitList(tail[2..])
  {
    if name != [] {
      assert (name + tail)[1..] == name[1..] + tail;
      assert ',' !in name[1..] by {
        forall k | 0 <= k < |name[1..]|
          ensures name[1..][k] != ','
        {
          assert name[1..][k] == name[k + 1] && name[k + 1] in name;
        }
      }
      assert name[0] in name;
      SplitName(name[1..], tail);
      assert [name[0]] + name[1..] == name;
    } else {
      assert name + tail == tail;
      if |tail| >= 2 && tail[..2] == ", " {
        assert tail[0] == ',' && tail[1] == ' ';
      }
    }
  }

  /** The column list of the INSERT statement reads back as the frame's columns. */
  lemma {:induction false} SplitJoin(cols: seq<string>)
    requires cols != [] && forall j :: 0 <= j < |cols| ==> ',' !in cols[j]
    ensures SplitList(Join(cols, ", ")) == cols
  {
    if |cols| == 1 {
      SplitName(cols[0], "");
      assert cols[0] + "" == cols[0];
    } else {
      var tail := ", " + Join(cols[1..], ", ");
      assert Join(cols, ", ") == cols[0] + tail;
      assert tail[2..] == Join(cols[1..], ", ");
      SplitName(cols[0], tail);
      SplitJoin(cols[1..]);
    }
  }

  lemma {:induction false} ValuesPlaceholders(n: nat)
    ensures Placeholders(Join(Repeat(PLACEHOLDER, n), ", ")) == n
    ensures n > 0 ==> Join(Repeat(PLACEHOLDER, n), ", ")[0] == '%'
  {
    if n > 1 {
      var rest := Join(Repeat(PLACEHOLDER, n - 1), ", ");
      assert Repeat(PLACEHOLDER, n)[1..] == Repeat(PLACEHOLDER, n - 1);
      ValuesPlaceholders(n - 1);
      NoPercentNoPlaceholder(", ");
      PlaceholdersAppend(PLACEHOLDER, ", ");
      PlaceholdersAppend(PLACEHOLDER + ", ", rest);
      assert Join(Repeat(PLACEHOLDER, n), ", ") == PLACEHOLDER + ", " + rest;
    } else if n == 1 {
      assert Join(Repeat(PLACEHOLDER, n), ", ") == PLACEHOLDER;
    }
  }

  lemma {:induction false} JoinNoPercent(items: seq<string>, sep: string)
    requires '%' !in sep && forall j :: 0 <= j < |items| ==> '%' !in items[j]
    ensures '%' !in Join(items, sep)
  {
    if |items| > 1 {
      JoinNoPercent(items[1..], sep);
    }
  }

  /** With `%`-free table and column names, the statement has exactly one
      placeholder per column. */
  lemma InsertPlaceholders(table: string, cols: seq<string>)
    requires '%' !in table && forall j :: 0 <= j < |cols| ==> '%' !in cols[j]
    ensures Placeholders(InsertStatement(table, cols)) == |cols|
  {
    var head := "INSERT INTO " + table + " (" + Join(cols, ", ") + ") VALUES (";
    var values := Join(Repeat(PLACEHOLDER, |cols|), ", ");
    JoinNoPercent(cols, ", ");
    assert '%' !in head;
    NoPercentNoPlaceholder(head);
    ValuesPlaceholders(|cols|);
    PlaceholdersAppend(head, values);
    NoPercentNoPlaceholder(")");
    PlaceholdersAppend(head + values, ")");
  }

  // -----------------------------------------------------------------------
  // Inserting the rows

  /** How many of the first `n` rows the database accepted. */
  function Inserted(t: Table, execute: (nat, seq<Value>) -> bool, n: nat): nat
    requires Rectangular(t) && n <= t.rows
  {
    if n == 0 then 0 else Inserted(t, execute, n - 1) + (if execute(n - 1, Row(t, n - 1)) then 1 else 0)
  }

  /** The positions among the first `n` rows whose insert raised, in order. */
  function FailedRows(t: Table, execute: (nat, seq<Value>) -> bool, n: nat): seq<nat>
    requires Rectangular(t) && n <= t.rows
  {
    if n == 0 then [] else FailedRows(t, execute, n - 1) + (if execute(n - 1, Row(t, n - 1)) then [] else [n - 1])
  }

  /** Every row is attempted: the accepted and the failed rows account for all
      of them, a row is reported failed exactly when its insert raised, and
      failures are reported in row order. */
  lemma {:induction false} InsertAccounting(t: Table, execute: (nat, seq<Value>) -> bool, n: nat)
    requires Rectangular(t) && n <= t.rows
    ensures Inserted(t, execute, n) + |FailedRows(t, execute, n)| == n
    ensures forall i: nat :: i in FailedRows(t, execute, n) <==> i < n && !execute(i, Row(t, i))
    ensures forall a, b :: 0 <= a < b < |FailedRows(t, execute, n)| ==>
      FailedRows(t, execute, n)[a] < FailedRows(t, execute, n)[b]
  {
    if n > 0 {
      InsertAccounting(t, execute, n - 1);
      var prev := FailedRows(t, execute, n - 1);
      forall a | 0 <= a < |prev|
        ensures prev[a] < n - 1
      {
        assert prev[a] in prev;
      }
    }
  }

  /** `insert_dataframe_to_table` on a frame, with `execute` telling whether
      `cursor.execute` succeeds on the row at each position. */
  method InsertDataFrame(t: Table, table: string, execute: (nat, seq<Value>) -> bool)
    returns (sql: string, inserted: nat, failed: seq<nat>)
    requires Rectangular(t)
    ensures sql == InsertStatement(table, ColumnNames(t))
    ensures inserted == Inserted(t, execute, t.rows) && failed == FailedRows(t, execute, t.rows)
    ensures inserted <= t.rows
  {
    var cols := Join(ColumnNames(t), ", ");
    var placeholders := Join(Repeat(PLACEHOLDER, |t.columns|), ", ");
    sql := "INSERT INTO " + table + " (" + cols + ") VALUES (" + placeholders + ")";
    inserted := 0;
    failed := [];
    var idx := 0;
    while idx < t.rows
      invariant idx <= t.rows
      invariant inserted == Inserted(t, execute, idx) && failed == FailedRows(t, execute, idx)
    {
      var row := Row(t, idx);
      if execute(idx, row) {
        inserted := inserted + 1;
      } else {
        failed := failed + [idx];
      }
      idx := idx + 1;
    }
    InsertAccounting(t, execute, t.rows);
  }
}
