# Daily commit statistics report, modelled in Dafny

`visualize_stats.py` turns daily statistics files into a small report. The files are named
`stats-by-category-YYYY-MM-DD.csv` and `stats-per-repo-YYYY-MM-DD.csv`. The script:

- reads the date of each file out of its name (`parse_date`);
- stamps every row of the file with that date and concatenates the files in order
  (`load_category_stats`, `load_repo_stats`);
- keeps the rows of the last fifteen days;
- prints them as a table with `YYYY-MM-DD` dates;
- draws one area per category, each filled down to zero on its own (the areas overlap);
- writes the chart into an HTML template in place of `<!--GRAPHS-->`.

It also has a trend-line chart and a bar chart with one series per category. When the plotted
column is `lines_changed`, each plot derives it as `lines_added + lines_deleted` on a copy of
its table.

The project models that logic over plain sequences of records:

| file | module | what it holds |
|---|---|---|
| `results.dfy` | `Results` | `Option` and `Result` |
| `text.dfy` | `Text` | Python's `str.replace`, `str.split`, `str.join`, `parts[-n:]` and POSIX `os.path.basename` |
| `dates.dfy` | `Dates` | Gregorian dates as `datetime` handles them, and `strptime` / `strftime` for `%Y-%m-%d` (following CPython's `_strptime` regular expressions) |
| `filenames.dfy` | `Filenames` | `parse_date` |
| `tables.dfy` | `Tables` | rows, the loader loop, boolean-mask selection and the window filter, the derived column on a `Frame` object, and the console date formatting |
| `charts.dfy` | `Charts` | the `Figure` object and the three `plot_*` functions |
| `report.dfy` | `Report` | `main` and the page written from the template |

The loaders and the plots change state step by step, so they are methods with loops:

- `LoadStats` appends to `dfs` in a loop.
- Each `plot_*` method rebinds `df` to a copy, adds the column in place, and calls
  `fig.add_trace` in a loop.

Each of these methods is proved against a specification function: `Combine`,
`CategoryTraces` or `AreaTraces`. Lemmas then prove what each function means.

Four behaviours of the code are worth stating plainly, since they are easy to misread:

- Every `<!--GRAPHS-->` in the template is replaced, not only one (`PageReplacesEveryMarker`).
- Every `.csv` anywhere in the base name is removed, not only a trailing extension (`Stem`).
- The window is a rolling one, `date >= today - 15 days`; there is no calendar-month window.
- The cutoff keeps the current time of day. A row's date (midnight) from exactly fifteen days
  ago therefore passes only when the script runs at exactly midnight (`MidnightCutoff`).

## Model

| member | source | states |
|---|---|---|
| Text.Split | visualize_stats.py:31 | `str.split` with a non-empty separator always returns at least one piece |
| Text.SplitPiecesLackSeparator | visualize_stats.py:31 | no piece of a split on one character contains that character |
| Text.JoinSplit | visualize_stats.py:31-32 | joining the pieces of a split with the same separator gives the original string back |
| Text.ReplaceIsSplitThenJoin | visualize_stats.py:31 | `s.replace(p, r)` equals `r.join(s.split(p))`: every occurrence found by a left-to-right scan is replaced and nothing else changes |
| Text.ReplaceAbsent | visualize_stats.py:148 | a string without the pattern is returned unchanged |
| Text.ReplaceSkipsPrefix | visualize_stats.py:148 | text before the first occurrence of the pattern is copied unchanged |
| Text.ReplaceAll | visualize_stats.py:31 | `s.replace(pat, rep)`: a left-to-right scan replacing each non-overlapping occurrence; its meaning is proved by `ReplaceIsSplitThenJoin`, `ReplaceAbsent`, `ReplaceSkipsPrefix` and `ReplaceAppend` |
| Text.Join | visualize_stats.py:32 | `sep.join(parts)`: the parts with `sep` between neighbours; `JoinSplit` proves it undoes `split` |
| Text.ReplaceAppend | visualize_stats.py:31 | when no occurrence straddles the boundary, replacing in `a + b` equals replacing in `a` and in `b` separately |
| Text.Basename | visualize_stats.py:29 | the base name has no `/`, is no longer than the path, and is either the whole path or preceded by a `/` |
| Text.BasenameIsSuffix | visualize_stats.py:29 | the base name is the tail of the path |
| Text.BasenameOfJoined | visualize_stats.py:29 | the base name of `dir + "/" + name` is `name` when `name` has no `/`; so is the base name of `name` alone |
| Dates.DaysInMonth | visualize_stats.py:33 | February has 29 days exactly in leap years and 28 otherwise; April, June, September and November have 30; the other months have 31 |
| Dates.Pad4 | visualize_stats.py:123 | `%Y` writes four digits whose value is the year |
| Dates.Pad2 | visualize_stats.py:123 | `%m` and `%d` write two digits whose value is the field |
| Dates.Format | visualize_stats.py:123 | `strftime('%Y-%m-%d')` is ten characters: dashes at positions 4 and 7, digits elsewhere |
| Dates.MatchMonth | visualize_stats.py:33 | the `%m` group reads a month 1..12 of one or two characters that is followed by `-` |
| Dates.MatchDay | visualize_stats.py:33 | the `%d` group reads a day 1..31 of one or two characters |
| Dates.Strptime | visualize_stats.py:33 | `strptime(s, '%Y-%m-%d')` returns only valid dates, and only for text with a `-` at position 4 and another one later |
| Dates.StrptimeOfFields | visualize_stats.py:33 | on zero-padded `YYYY-MM-DD` text, `strptime` succeeds exactly when the fields name a valid date, and then returns those fields |
| Dates.StrptimeFormat | visualize_stats.py:123 | `strptime` reads back the date that `strftime('%Y-%m-%d')` wrote |
| Dates.RejectsMonth13 | visualize_stats.py:33 | `2024-13-01` does not match the format |
| Dates.RejectsDay32 | visualize_stats.py:33 | `2024-01-32` leaves unconverted data `2` |
| Dates.RejectsFebruary29InCommonYear | visualize_stats.py:33 | `2023-02-29` is out of range; `2024-02-29` is accepted |
| Dates.PrevDay | visualize_stats.py:140 | one day back exists exactly when the date is not 0001-01-01, and it is a valid earlier day |
| Dates.PrevDayAdjacent | visualize_stats.py:140 | no valid day lies strictly between a day and the day before it |
| Dates.DaysBefore | visualize_stats.py:140 | `d - timedelta(days=n)`, when it exists, is a valid day no later than `d`, and strictly earlier when `n > 0` |
| Dates.DaysBeforeStep | visualize_stats.py:140 | going back `n + 1` days is going back `n` days and then one more |
| Dates.OnOrAfter | visualize_stats.py:141 | `>=` on dates, compared by year, then month, then day; `OnOrAfterOrder` proves it a total order |
| Dates.MidnightOnOrAfter | visualize_stats.py:141 | `date >= cutoff_date` between a parsed date (midnight) and the cutoff instant; `MidnightCutoff` states when the cutoff's own day passes |
| Dates.InstantDaysBefore | visualize_stats.py:139-140 | `today - Timedelta(days=n)` keeps the time of day and lands on a valid instant |
| Dates.OnOrAfterOrder | visualize_stats.py:141 | date comparison is a total order: reflexive, total, antisymmetric and transitive |
| Dates.MidnightCutoff | visualize_stats.py:139-141 | a row's date passes `date >= cutoff` when it is after the cutoff's day, or on that day only when the cutoff is exactly midnight |
| Filenames.Stem | visualize_stats.py:29-31 | the base name with every `.csv` removed; `StemOfDailyName` gives its value on daily file names |
| Filenames.Components | visualize_stats.py:31 | the stem always has at least one `-`-separated component |
| Filenames.ParseTail | visualize_stats.py:32-33 | dropping leading components and parsing the rest yields only valid dates |
| Filenames.ParseTailIsLastThree | visualize_stats.py:32 | that equals `strptime('-'.join(parts[-3:]))` |
| Filenames.ParseDate | visualize_stats.py:28-33 | `parse_date` returns only valid dates |
| Filenames.NoExtensionIn | visualize_stats.py:31 | text without a `.` cannot contain `.csv` |
| Filenames.StemOfDailyName | visualize_stats.py:31 | removing `.csv` from `<prefix>-YYYY-MM-DD.csv` leaves the cleaned prefix, `-` and the date text |
| Filenames.ComponentsOfFormat | visualize_stats.py:31-32 | a formatted date splits into year, month and day, and joins back into the same text |
| Filenames.ParseDailyName | visualize_stats.py:28-33 | round trip: under any directory and after any prefix, dashes included, the date written into a daily file name is the date parsed back |
| Filenames.ParseCategoryFileName | visualize_stats.py:28-33 | `parse_date(dir + "/stats-by-category-" + fmt(d) + ".csv") == d` for every valid `d` |
| Filenames.StrptimeNeedsTwoDashes | visualize_stats.py:33 | text with fewer than two dashes never parses |
| Filenames.FewerThanThreeComponentsFail | visualize_stats.py:31-33 | a stem with fewer than three components makes `parse_date` fail |
| Tables.CombineWith | visualize_stats.py:38-43 | the combined table has as many rows as all the files together |
| Tables.CombineWithDates | visualize_stats.py:39-41 | every combined row carries a date that the parser produced |
| Tables.Combine | visualize_stats.py:36-43 | the loaders' table has as many rows as all the files together, and every date in it is valid |
| Tables.CombineWithOk | visualize_stats.py:38-39 | for any date parser, the load succeeds exactly when every file name parses |
| Tables.CombineOk | visualize_stats.py:38-39 | the load succeeds exactly when every file name parses with `parse_date` |
| Tables.CombineWithErr | visualize_stats.py:38-39 | a failed load stops at the first file whose name does not parse and raises the parser's error for it; no later file is looked at |
| Tables.CombineErr | visualize_stats.py:38-39 | the same for `parse_date` |
| Tables.Concat | visualize_stats.py:43 | `pd.concat(dfs, ignore_index=True)` on rows: the tables one after another; `CombineWithPlacement` locates each row in it |
| Tables.CombineErrPrefix | visualize_stats.py:38-39 | once a prefix of the files fails to load, the whole list fails with the same error |
| Tables.LoadStats | visualize_stats.py:36-53 | `load_category_stats` / `load_repo_stats`: an empty list raises (`pd.concat([])`); otherwise the result is the combined table, which exists exactly when every name parses; on failure, the error raised is `strptime`'s error for the first file whose name does not parse |
| Tables.CombineWithPlacement | visualize_stats.py:41-43 | row `j` of file `i` sits at position `rows(files[..i]) + j`: files in the given order, rows in file order, each row with its own file's date |
| Tables.CombinedPlacement | visualize_stats.py:36-43 | the same for `parse_date`: every row from file `f` carries `parse_date(f)` |
| Tables.Where | visualize_stats.py:141 | `t[mask]` is no longer than `t`, and every selected row is a row of `t` that satisfies the mask |
| Tables.WhereIsSubsequence | visualize_stats.py:141 | the selection keeps the table's order |
| Tables.WhereCounts | visualize_stats.py:141 | each row occurs in the selection exactly as often as in the table when it satisfies the mask, and not at all otherwise |
| Tables.WhereAppend | visualize_stats.py:141 | selecting from `a + b` is selecting from `a`, then from `b` |
| Tables.WhereIdempotent | visualize_stats.py:141 | selecting twice with the same mask is selecting once |
| Tables.Since | visualize_stats.py:141 | every row of the window is dated on or after the cutoff and comes from the table, and the window is no longer than the table |
| Tables.WhereNone | visualize_stats.py:84 | a mask that no row satisfies selects nothing |
| Tables.SinceSelectsWindow | visualize_stats.py:141 | the window is exactly the rows with `date >= cutoff`, each as often as in the table, in table order |
| Tables.SinceIdempotent | visualize_stats.py:141 | filtering the window again changes nothing |
| Tables.SinceOfAppend | visualize_stats.py:141 | filtering the combined table is filtering each part and combining the results |
| Tables.Prepared | visualize_stats.py:58-60 | the table a plot draws from has the caller's rows in order with their dates and categories; it is the caller's table unless the value column is `lines_changed` |
| Tables.WithLinesChanged | visualize_stats.py:60 | every row keeps its date, category, `lines_added` and `lines_deleted`, and gets `lines_changed = lines_added + lines_deleted` |
| Tables.Frame.Copy | visualize_stats.py:59 | `df.copy()` is a new frame with the same rows |
| Tables.Frame.AddLinesChanged | visualize_stats.py:60 | assigning the column replaces the frame's rows by their derived form |
| Tables.DisplayRows | visualize_stats.py:122-123 | the printed table has one row per window row |
| Tables.DisplayRowsRoundTrip | visualize_stats.py:122-123 | every printed row keeps its other columns, and its date text reads back as the row's date |
| Charts.Figure.constructor | visualize_stats.py:57 | `go.Figure()` starts with no traces |
| Charts.OfCategory | visualize_stats.py:62 | every selected row has the category asked for and comes from the table, and the selection is no longer than the table |
| Charts.Figure.AddTrace | visualize_stats.py:63 | `fig.add_trace` appends the trace and keeps the earlier ones |
| Charts.OfCategoryCounts | visualize_stats.py:62 | `df[df['category'] == cat]` holds exactly the rows of `cat`, each as often as in the table, in table order |
| Charts.OfAbsentCategory | visualize_stats.py:84 | a category with no rows selects an empty table |
| Charts.Categories | visualize_stats.py:61 | `df['category']` lists each row's category, in row order |
| Charts.Unique | visualize_stats.py:61 | `unique()` has no repeats and holds exactly the values of the column |
| Charts.UniqueFirstAppearance | visualize_stats.py:61 | `unique()` lists values in the order they first appear |
| Charts.CategoryTraces | visualize_stats.py:61-63 | the trend and bar traces: `Traces` over `unique()` of the category column; `CategoryTracesPartition` and `CategoryTracesNamed` prove what they hold |
| Charts.AreaTraces | visualize_stats.py:83-86 | the area traces: `Traces` over the fixed category list with palette colours; `AreaTracesSelect` proves what they hold |
| Charts.Traces | visualize_stats.py:61-63 | trace `k` is named after category `k` and holds that category's rows |
| Charts.TracesPartition | visualize_stats.py:61-63 | for distinct categories, the traces together hold exactly the rows of the listed categories, each once |
| Charts.CategoryTracesPartition | visualize_stats.py:61-63 | trend and bar traces partition the table: every row lands in exactly one trace |
| Charts.CategoryTracesNamed | visualize_stats.py:61-63 | there is one trace per distinct category, with no two sharing a name; each holds only rows of its own category, in the chart's style |
| Charts.AreaTracesSelect | visualize_stats.py:83-86 | the area chart has exactly four traces, in the fixed category order, each with its category's rows and colour; together they hold exactly the rows of those four categories |
| Charts.AreaTraceOfAbsentCategory | visualize_stats.py:83-86 | a category with no rows still gets its trace, empty, in its slot and colour |
| Charts.PaletteCoversShownCategories | visualize_stats.py:10-16 | every category shown on the page has its own palette colour |
| Charts.Prepare | visualize_stats.py:58-60 | the plot's table is the caller's table with `lines_changed` derived when it is the value column, and the caller's frame is unchanged |
| Charts.PlotByCategory | visualize_stats.py:56-76 | the figure's traces are one per distinct category, in order of first appearance; the caller's frame is unchanged |
| Charts.PlotCategoryTrends | visualize_stats.py:56-65 | `plot_category_trends`: those traces, drawn as lines with markers |
| Charts.PlotCategoryBar | visualize_stats.py:67-76 | `plot_category_bar`: those traces, drawn as bars |
| Charts.PlotCategoryArea | visualize_stats.py:78-86 | `plot_category_area`: one filled trace per category to visualise, in the fixed order, coloured from the palette; the caller's frame is unchanged |
| Report.Page | visualize_stats.py:148 | `template.replace('<!--GRAPHS-->', graph_html)`; the `Page*` lemmas below prove what it yields |
| Report.Run | visualize_stats.py:128-151 | `main`: no files stops before loading anything; a load error or an out-of-range cutoff stops the run; otherwise it prints the window with formatted dates and publishes the template with the area chart of the window's `lines_changed` |
| Report.PageOfSingleMarker | visualize_stats.py:148 | a template whose only marker sits between `pre` and `post` becomes `pre`, the chart, then `post` |
| Report.PageExample | visualize_stats.py:148 | `"<html><!--GRAPHS--></html>"` with `"<div>X</div>"` becomes `"<html><div>X</div></html>"` |
| Report.PageWithoutMarker | visualize_stats.py:148 | a template without the marker is published unchanged |
| Report.PageReplacesEveryMarker | visualize_stats.py:148 | every marker is replaced, not only the first |

## Left out

- `find_csvs` (`glob` over `daily/`) is not modelled. The loaders take a list of files in the order given; the script passes it sorted.
- `pd.read_csv` is not modelled: a file is its name and the rows already read from it. A row holds the columns the report uses (`category`, `lines_added`, `lines_deleted`, `lines_changed`); other columns pass through unchanged and are not modelled.
- `datetime.today()` is not modelled; the current instant is a parameter of `Report.Run`.
- Plotly layout and styling, `fig.to_html` and `fig.write_image` (with its `try`/`except`) are not modelled. The HTML of the chart is a function parameter of `Report.Run`, and a trace is its name, rows, value column and style.
- `tabulate` printing is not modelled; the printed table is the sequence of rows with formatted dates.
- Reading the template and writing `index.html` are file I/O. The template text is a parameter, and the page is part of the outcome.
- A trace records the name of its value column, not the values read from it. A `KeyError` for a value column the table lacks is not modelled.
- `Dates.Strptime`: `\d` is modelled as the ASCII digits only, not every Unicode decimal digit that Python's `re` accepts.
- `Dates.Format`: years below 1000 are zero-padded to four digits, as `datetime.strftime` does on most platforms. Platforms whose `strftime` writes them without padding are not modelled. Every year `parse_date` produces has four digits in its name anyway.
- `Tables.LoadStats` models `load_category_stats` and `load_repo_stats` together, because their bodies are identical; only the row type differs.
- `MalformedFilename` carries the name of the file whose date failed to parse, next to `strptime`'s reason. Python's `ValueError` does not carry the file name; its message holds the rejoined date text `'-'.join(parts[-3:])` instead.
- Missing categories are not modelled: a row's category is always a string. `pd.read_csv` reads an empty cell, or text such as `NA`, `null` or `None`, as NaN. `unique()` then lists NaN, and `df['category'] == nan` holds for no row, so such rows would fall in no trend or bar trace. `Charts.CategoryTracesPartition` assumes every category is present.
- `Tables.WithLinesChanged` adds with unbounded integers. pandas adds `int64` columns, which wrap on overflow; the model assumes the counts stay within `int64`.
