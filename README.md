# Traffic-stop cleaning and dashboard queries, modelled in Dafny

This project models two parts of a traffic-stop records application.

**The cleaning pipeline `load_and_clean`** (data_processing.py) takes a frame of stop
records and rewrites it column by column:

- it drops the columns that hold no value;
- it trims and lower-cases the column names;
- it parses `stop_date` and `stop_time`;
- it derives or coerces `driver_age`;
- it reads the three boolean-like columns through a fixed token table;
- it classifies `violation_raw` into `violation` with the nested `map_violation`;
- it defaults five categorical columns to `"Unknown"`;
- it adds `needs_review` where both the date and the time are missing.

The demonstration record at the bottom of the file is modelled as a concrete scenario.

**The database side of the dashboard** (str_app.py) covers:

- the parameterised filter query that the sidebar widgets build;
- the choice between that query and the fixed default query;
- the `INSERT` statement and the count of accepted rows in `insert_dataframe_to_table`.

Modules:

- `Values`: the cell kinds of a frame (`Null` stands for every pandas missing marker), plus `Option` and `Result`.
- `Text`: the Python string operations the code uses: `strip`, `lower`, `title`, `p in s`, and the integer text `str(n)` with its reading back.
- `Tables`: a frame as a row count and an ordered list of named columns. `Put` is `df[n] = cells`: it overwrites a column in place or appends a new one.
- `Cleaning`: every step of `load_and_clean` as a function from frame to frame, and `Clean`, their composition. `LoadAndClean` is the same code as a method that rebinds its frame after each statement and rewrites the boolean and categorical columns in `for` loops.
- `CellFacts`: properties of the per-cell rules (`map_violation`, the token table, the age coercion, the categorical default).
- `CleaningFacts`: what the whole pipeline guarantees:
  - the output schema;
  - each named column's rewrite;
  - untouched columns pass through;
  - when the call raises.
- `Sample`: the demonstration record and the exact frame it cleans to.
- `Dashboard`: the filter query, its imperative builder `BuildFilterQuery`, the query choice, the `INSERT` text and the insert loop.

## Model

| member | source | states |
|---|---|---|
| Cleaning.Clean | data_processing.py:5-65 | Cleaning a frame that can be cleaned either raises or returns a valid frame with the same number of rows. |
| Cleaning.LoadAndClean | data_processing.py:10-65 | The statement-by-statement method returns exactly `Clean` of its input: the loops over the boolean and categorical columns end in the same frame as the column-wise rewrites. No row is added or removed. |
| Cleaning.KeepPresentMembers | data_processing.py:13 | The pruning step keeps a column exactly when its cells are not all missing. It never adds a column. |
| Cleaning.DropEmptyColumns | data_processing.py:13 | The pruned frame keeps one cell per row in each column, and the same number of rows. |
| CleaningFacts.RenamedColumns | data_processing.py:13-16 | After pruning and renaming, each column is some input column with a present cell, under its stripped, lower-cased name. Every such input column appears this way. |
| CleaningFacts.AllMissingColumnDropped | data_processing.py:13-63 | Take an input column with no present cell whose normalised name no present column shares. Its name is in the output only when the code derives a column of that name (`driver_age`, `violation`, `needs_review`). So an all-missing categorical column is dropped, not filled with "Unknown". |
| CleaningFacts.NormalizeNameIdempotent | data_processing.py:16 | Normalising a normalised name gives the same name. |
| Tables.Put | data_processing.py:20 | `df[n] = cells` overwrites an existing column where it stands, or appends a new one at the end. The frame stays valid, `n` holds `cells`, and every other column is unchanged. |
| Cleaning.ParseDates | data_processing.py:19-20 | Only `stop_date` is rewritten, with the parsed date cells. Names, order and row count are kept. |
| Cleaning.ParseTimes | data_processing.py:21-23 | Only `stop_time` is rewritten, with the parsed time cells. Names, order and row count are kept. |
| CleaningFacts.CleanDates | data_processing.py:19-20 | In the output, a `stop_date` cell is missing exactly when the input cell is missing or cannot be parsed. Otherwise it is the parsed date. |
| CleaningFacts.CleanTimes | data_processing.py:21-23 | The same for `stop_time` and the parsed time of day. |
| Cleaning.CoerceAge | data_processing.py:27 | An age cell becomes an integer or missing:<br>• integers are kept;<br>• integer text (optional sign, digits) is read, negative ages included;<br>• other text, missing cells, dates and times become missing. |
| Cleaning.DeriveAge | data_processing.py:26-29 | With no `driver_age` but a `driver_age_raw`, a coerced `driver_age` is appended. An existing `driver_age` is coerced in place. Every other column is unchanged. |
| CleaningFacts.CleanAge | data_processing.py:26-29 | The output has `driver_age` exactly when the input has `driver_age` or `driver_age_raw`. It is the coerced `driver_age` when there is one, else the coerced `driver_age_raw`. |
| CellFacts.CoerceAgeOfText | data_processing.py:27 | The text of any integer is read back as that integer. |
| CellFacts.CoerceAgeIdempotent | data_processing.py:29 | Coercing a coerced age changes nothing. |
| Text.ParseIntegerOfText | data_processing.py:27 | Reading `str(n)` as an integer gives `n` back, for negative `n` too. |
| Cleaning.BoolToken | data_processing.py:35-41 | A cell maps to true exactly when it is `'True'`, `'true'`, `'1'`, `1` or `True`. It maps to false exactly for `'False'`, `'false'`, `'0'`, `0` or `False`. Every other value maps to missing. |
| CellFacts.BoolTokenIdempotent | data_processing.py:35-41 | Applying the token table twice is applying it once. |
| Cleaning.MapColumns | data_processing.py:33-34 | Visiting a list of columns and rewriting those present keeps the names, their order and the row count. |
| Cleaning.MapColumnsCells | data_processing.py:33-41 | With distinct listed names, each listed column present is rewritten once, and every other column is unchanged. |
| CleaningFacts.CleanBooleans | data_processing.py:32-41 | Each present boolean-like column is, cell for cell, the token table applied to the input cell. |
| CellFacts.CategoryIsFirstMatch | data_processing.py:48-51 | The if-chain of `map_violation` is the rule table tried in order: `speed` → Speeding, `dui`/`drunk` → DUI, `seat` → Seatbelt, `equipment` → Equipment. The first rule with a keyword in the text wins. |
| CellFacts.FirstMatch | data_processing.py:48-51 | The first-match lookup finds a class exactly when some rule has a keyword in the text. It returns the class of the earliest such rule. |
| CellFacts.SpeedingBeforeDui | data_processing.py:48-49 | `"DUI speeding stop"` is classified as Speeding, not DUI. |
| CellFacts.MapViolationFails | data_processing.py:45-52 | `map_violation` raises exactly on a present value that is not a string. `str()` of an integer, a boolean, a date or a time holds no keyword, and such a value has no `strip()`. |
| CellFacts.MapViolationIdempotent | data_processing.py:45-52 | Classifying a classified value changes nothing: class names map to themselves, and stripped, title-cased text stays as it is. |
| Cleaning.ClassifyColumn | data_processing.py:53 | `apply(map_violation)` succeeds exactly when every cell classifies, giving the classes cell for cell. Otherwise it fails at the first cell that raises. |
| CellFacts.ClassifyFails | data_processing.py:53 | Classifying a column fails exactly when some cell is a present non-string, and it reports the first such cell. |
| Cleaning.DeriveViolation | data_processing.py:44-53 | `violation` is appended only when `violation_raw` exists and `violation` does not. An existing `violation` and every other column are kept. |
| CleaningFacts.CleanViolation | data_processing.py:44-53 | The output has `violation` exactly when the input has `violation` or `violation_raw`. An existing `violation` is passed through unchanged. Otherwise each cell is `map_violation` of the raw cell. |
| CleaningFacts.MissingViolationStaysMissing | data_processing.py:46 | A missing raw violation stays missing in `violation`; it is not defaulted to "Unknown". |
| CleaningFacts.CleanFailsExactly | data_processing.py:44-53 | The modelled pipeline fails exactly when `violation` is derived and some raw cell is a present non-string. The error names the first such row. The age cast's own raise is not modelled (see "Left out"). |
| CleaningFacts.CleanCategorical | data_processing.py:56-59 | In each present categorical column, missing cells become "Unknown" and present cells are kept. |
| CellFacts.FillUnknownFacts | data_processing.py:59 | The default leaves no cell missing, keeps present cells, and is idempotent. |
| Cleaning.AddReviewFlag | data_processing.py:62-63 | With both `stop_date` and `stop_time`, `needs_review` is set (appended if new) to "both missing" row by row. Without them, the frame is unchanged. |
| CleaningFacts.CleanReviewFlag | data_processing.py:62-63 | With a date and a time column, `needs_review[i]` is true exactly when both output cells of row `i` are missing, so an unparseable value counts as missing. Without them, an existing `needs_review` is kept. |
| CleaningFacts.CleanSchema | data_processing.py:26-63 | The output columns are the renamed columns in their order. Then come `driver_age`, `violation` and `needs_review`, each only when the code derives it and it was not there. No categorical column is created. |
| CleaningFacts.CleanUntouched | data_processing.py:12-63 | A column that no step names reaches the output unchanged. |
| CleaningFacts.KeptColumn | data_processing.py:19-59 | A column that no step creates ends up rewritten by its own rule: parsed if it is the date or time, token-mapped if boolean-like, defaulted if categorical. |
| Sample.SampleCleaned | data_processing.py:69-86 | Given parsers that read `'2025-11-15'` and `'14:30'`, the demonstration record cleans to exactly one frame:<br>• `search_type` is dropped;<br>• the date and time are parsed;<br>• `driver_age` is 27;<br>• `violation` is "Speeding";<br>• `search_conducted` is false;<br>• `needs_review` is false;<br>• every other value is kept. |
| Text.StripFacts | data_processing.py:52 | `strip()` leaves the part of the text between its leading and trailing whitespace, and neither end of the result is whitespace. |
| Text.StripIdempotent | data_processing.py:52 | Stripping twice is stripping once. |
| Text.TitleIdempotent | data_processing.py:52 | Title-casing a title-cased text changes nothing. |
| Text.ContainsIff | data_processing.py:48 | The substring test holds exactly when the keyword occurs at some position. |
| Dashboard.BuildFilterQuery | str_app.py:148-164 | The imperative builder ends with the filtered query text and parameter list: the date range, then each active filter's step, then the ordering and limit. |
| Dashboard.FilteredShape | str_app.py:148-164 | The filtered query is the date range, the clause of each active filter in order, and the ordering. Its parameters are the two dates, then each active filter's value in the same order. |
| Dashboard.FilterQueryShape | str_app.py:148-164 | The query starts with the `BETWEEN %s AND %s` range and ends with `ORDER BY stop_date DESC, stop_time DESC LIMIT 1000`. The parameters start with the start and end dates. Parameter `2 + i` is the value of the `i`-th active filter: the gender, `%text%` of the trimmed violation text, the trimmed plate, or the boolean `flag == "True"`. |
| Dashboard.FilterPlaceholdersMatch | str_app.py:148-164 | The filtered query holds exactly as many `%s` placeholders as it has parameters. |
| Dashboard.ActiveFiltersFacts | str_app.py:151-162 | Exactly the active filters take part, each once, in the order gender, violation, plate, search flag. |
| Dashboard.InactiveFilters | str_app.py:151-160 | A filter stays out exactly when its widget holds its neutral value: gender "All", whitespace-only violation text or plate, or a search flag other than "True" and "False". |
| Text.StripEmptyIff | str_app.py:154-157 | A trimmed text is empty exactly when the text is all whitespace. |
| Dashboard.ChooseQueryIff | str_app.py:168-171 | The filtered query and its parameters run exactly when the button was pressed or the trimmed violation text is non-empty. Otherwise the fixed `LIMIT 200` query runs with no parameters. |
| Dashboard.Repeat | str_app.py:37 | `['%s'] * n` has `n` items, all placeholders. |
| Dashboard.SplitJoin | str_app.py:36 | The column list of the `INSERT` text splits back into the frame's columns, in frame order. |
| Dashboard.InsertPlaceholders | str_app.py:36-38 | The `INSERT` text holds exactly one placeholder per column. |
| Dashboard.InsertAccounting | str_app.py:40-46 | Every row is attempted:<br>• accepted plus failed rows account for all of them;<br>• a row counts as failed exactly when its insert raised;<br>• failures are reported in row order. |
| Dashboard.InsertDataFrame | str_app.py:36-46 | The loop returns the `INSERT` text over the frame's columns, the number of rows whose insert did not raise (at most the row count), and the failed rows. |

## Left out

- The `isinstance(path_or_df, str)` branch (data_processing.py:7-8) reads a CSV file from a fixed path. It is file I/O and is not modelled; `Clean` takes the frame argument.
- `pd.to_datetime(..., errors='coerce')` with `.dt.date` and `.dt.time` belong to pandas. They are the two parser parameters in `Cleaning.Parsers`, which parse each cell on its own. A missing cell always parses to missing. Without a `format`, pandas infers one format from the first present value of the column and turns cells that do not match it into missing. So in pandas, whether a cell parses depends on the other cells; the model does not capture that.
- Cleaning.CoerceAge: the model reads only integer text, and gives missing for any other numeric text. pandas reads integral decimal text such as `"27.0"` or `"1e1"` as that integer. It raises during the `Int64` cast on non-integral or out-of-range numbers such as `"27.5"`.
- CleaningFacts.CleanFailsExactly: it covers only the raise in `map_violation`. The raise of the `Int64` cast on non-integral age values is not modelled, so on such a frame the model cleans where the code raises.
- Cleaning.CoerceAge: the model does not strip whitespace around the digits, which `to_numeric` may accept.
- Text.Lower and Text.Title cover ASCII letters only; other letters are left as they are.
- Cleaning.Clean and Cleaning.LoadAndClean require distinct column names after renaming. The code does not check this; pandas would then hold duplicate labels.
- The copy at data_processing.py:10 is implicit: frames are values, so the input cannot change.
- The final `print` of the demonstration, and the whole Streamlit user interface, are not modelled. That covers widgets, layout, charts and CSS.
- Running SQL is not modelled: connections, `cursor.execute`, `commit`, `run_query`, the analytics queries and their results, and the floating-point rates.
- Dashboard.InsertDataFrame: whether `cursor.execute` raises on a row is a parameter (`execute`). The printed message and `commit` are not modelled.
- Dashboard.InsertDataFrame: a row is reported by its position, not by the frame's index label.
- Dashboard.SplitJoin: it holds only for column names without a comma; a comma inside a name makes the column list ambiguous.
- Dashboard.InsertPlaceholders: it holds only for table and column names without `%`, which would otherwise add placeholders.
- Sample.SampleCleaned: it assumes that the date and time parsers read the two sample strings as pandas does.
- `load_and_clean` itself is not idempotent, and no lemma claims it is. Take a `stop_date` column in which no value parses. It becomes all missing, so a second run drops it at data_processing.py:13 and no longer recomputes `needs_review`. Only the per-cell rules are idempotent (`BoolTokenIdempotent`, `CoerceAgeIdempotent`, `MapViolationIdempotent`, `FillUnknownFacts`).
