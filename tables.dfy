/** The tables of the report: rows read from the daily files, the loader that
    stamps and concatenates them, boolean-mask selection (the window filter),
    the derived `lines_changed` column and the date formatting of the console
    table. */
module Tables {
  import opened Results
  import opened Dates
  import opened Filenames

  /** The columns of a `stats-by-category-*.csv` row that the report reads.
      `linesChanged` is `None` while the table has no `lines_changed` column. */
  datatype Row = Row(category: string, linesAdded: int, linesDeleted: int, linesChanged: Option<int>)

  /** A row after `df['date'] = date`: the fields read from the file plus its date. */
  datatype Dated<R> = Dated(date: Date, fields: R)

  /** One located file: its path and the rows `pd.read_csv` returned for it. */
  datatype DailyFile<R> = DailyFile(name: string, rows: seq<R>)

  /** Why `load_category_stats` / `load_repo_stats` raised. */
  datatype LoadError =
    | NoObjectsToConcatenate                          // `pd.concat([])`
    | MalformedFilename(name: string, reason: ParseError)

  type Table = seq<Dated<Row>>

  // ------------------------------------------------------------ aggregation

  /** Every row of one file, carrying that file's date. */
  function Stamp<R>(rows: seq<R>, date: Date): seq<Dated<R>>
  {
    seq(|rows|, j requires 0 <= j < |rows| => Dated(date, rows[j]))
  }

  /** `pd.concat(dfs, ignore_index=True)` on the rows: the tables one after another. */
  function Concat<T>(tables: seq<seq<T>>): seq<T>
  {
    if tables == [] then [] else Concat(tables[..|tables| - 1]) + tables[|tables| - 1]
  }

  /** A date parser for file names; the loaders use `ParseDate`. */
  type Parser = string -> Result<Date, ParseError>

  /** Every file name yields a date. */
  predicate NamesParse<R>(files: seq<DailyFile<R>>, parse: Parser)
  {
    forall k :: 0 <= k < |files| ==> parse(files[k].name).Ok?
  }

  predicate AllNamesParse<R>(files: seq<DailyFile<R>>)
  {
    NamesParse(files, ParseDate)
  }

  /** File `k` is the first whose name does not parse: the loader stops there. */
  predicate FirstFailure<R>(files: seq<DailyFile<R>>, parse: Parser, k: int)
  {
    0 <= k < |files| && parse(files[k].name).Err?
    && forall i :: 0 <= i < k ==> parse(files[i].name).Ok?
  }

  predicate FirstMalformed<R>(files: seq<DailyFile<R>>, k: int)
  {
    FirstFailure(files, ParseDate, k)
  }

  function TotalRows<R>(files: seq<DailyFile<R>>): nat
  {
    if files == [] then 0 else TotalRows(files[..|files| - 1]) + |files[|files| - 1].rows|
  }

  /** The loop of the loaders, file by file: parse the name, stamp the rows
      and append them; the first name that does not parse aborts. Stated for
      any parser, so that what is proved about order and counts does not
      depend on how `parse_date` reads a name. */
  function CombineWith<R>(files: seq<DailyFile<R>>, parse: Parser): (r: Result<seq<Dated<R>>, LoadError>)
    ensures r.Ok? ==> |r.value| == TotalRows(files)
  {
    if files == [] then Ok([])
    else
      var last := files[|files| - 1];
      match CombineWith(files[..|files| - 1], parse)
      case Err(e) => Err(e)
      case Ok(t) =>
        match parse(last.name)
        case Err(reason) => Err(MalformedFilename(last.name, reason))
        case Ok(date) => Ok(t + Stamp(last.rows, date))
  }

  /** Every combined row carries a date the parser produced. */
  lemma {:induction false} CombineWithDates<R>(files: seq<DailyFile<R>>, parse: Parser)
    requires CombineWith(files, parse).Ok?
    ensures forall k :: 0 <= k < |CombineWith(files, parse).value| ==>
              exists s :: parse(s) == Ok(CombineWith(files, parse).value[k].date)
  {
    if files != [] {
      CombineWithDates(files[..|files| - 1], parse);
    }
  }

  /** What `load_category_stats` builds from the files. */
  function Combine<R>(files: seq<DailyFile<R>>): (r: Result<seq<Dated<R>>, LoadError>)
    ensures r.Ok? ==> |r.value| == TotalRows(files)
    ensures r.Ok? ==> forall k :: 0 <= k < |r.value| ==> Valid(r.value[k].date)
  {
    var r := CombineWith(files, ParseDate);
    if r.Ok? then CombineWithDates(files, ParseDate); r else r
  }

  /** The files combine exactly when every name parses. */
  lemma {:induction false} CombineWithOk<R>(files: seq<DailyFile<R>>, parse: Parser)
    ensures CombineWith(files, parse).Ok? <==> NamesParse(files, parse)
  {
    if files != [] {
      var init := files[..|files| - 1];
      CombineWithOk(init, parse);
      forall k | 0 <= k < |init| ensures init[k] == files[k] { }
    }
  }

  lemma CombineOk<R>(files: seq<DailyFile<R>>)
    ensures Combine(files).Ok? <==> AllNamesParse(files)
  {
    CombineWithOk(files, ParseDate);
  }

  /** When combining fails, it is on the first file whose name does not
      parse, with that name and the reason it was rejected. */
  lemma {:induction false} CombineWithErr<R>(files: seq<DailyFile<R>>, parse: Parser)
    requires CombineWith(files, parse).Err?
    ensures exists k :: FirstFailure(files, parse, k)
                        && CombineWith(files, parse).error == MalformedFilename(files[k].name, parse(files[k].name).error)
  {
    var init := files[..|files| - 1];
    forall k | 0 <= k < |init| ensures init[k] == files[k] { }
    if CombineWith(init, parse).Err? {
      CombineWithErr(init, parse);
      var k :| FirstFailure(init, parse, k)
               && CombineWith(init, parse).error == MalformedFilename(init[k].name, parse(init[k].name).error);
      assert FirstFailure(files, parse, k);
    } else {
      CombineWithOk(init, parse);
      assert FirstFailure(files, parse, |files| - 1);
    }
  }

  lemma CombineErr<R>(files: seq<DailyFile<R>>)
    requires Combine(files).Err?
    ensures exists k :: FirstMalformed(files, k)
                        && Combine(files).error == MalformedFilename(files[k].name, ParseDate(files[k].name).error)
  {
    CombineWithErr(files, ParseDate);
  }

  /** Once a prefix fails, the whole list fails with the same error. */
  lemma {:induction false} CombineErrPrefix<R>(files: seq<DailyFile<R>>, parse: Parser, i: nat)
    requires i <= |files| && CombineWith(files[..i], parse).Err?
    ensures CombineWith(files, parse) == CombineWith(files[..i], parse)
  {
    if i < |files| {
      var init := files[..|files| - 1];
      assert init[..i] == files[..i];
      CombineErrPrefix(init, parse, i);
    } else {
      assert files[..i] == files;
    }
  }

  /** `load_category_stats` and `load_repo_stats` (the two bodies are the same):
      for each file in order, parse its date, stamp its rows and append them
      to `dfs`; then concatenate. A malformed name aborts the whole load, and
      an empty file list makes `pd.concat` raise. */
  method LoadStats<R>(files: seq<DailyFile<R>>) returns (res: Result<seq<Dated<R>>, LoadError>)
    ensures res == if files == [] then Err(NoObjectsToConcatenate) else Combine(files)
    ensures res.Ok? <==> files != [] && AllNamesParse(files)
    ensures res.Err? && files != [] ==>
              exists k :: FirstMalformed(files, k)
                          && res.error == MalformedFilename(files[k].name, ParseDate(files[k].name).error)
  {
    CombineOk(files);
    var dfs: seq<seq<Dated<R>>> := [];
    for i := 0 to |files|
      invariant |dfs| == i
      invariant CombineWith(files[..i], ParseDate) == Ok(Concat(dfs))
    {
      var date := ParseDate(files[i].name);
      assert files[..i + 1][..i] == files[..i];
      assert files[..i + 1][i] == files[i];
      if date.Err? {
        res := Err(MalformedFilename(files[i].name, date.error));
        CombineErrPrefix(files, ParseDate, i + 1);
        CombineErr(files);
        return;
      }
      var df := Stamp(files[i].rows, date.value);
      dfs := dfs + [df];
      assert dfs[..|dfs| - 1] == dfs[..i];
    }
    assert files[..|files|] == files;
    if |dfs| == 0 {
      return Err(NoObjectsToConcatenate);
    }
    res := Ok(Concat(dfs));
  }

  /** Row `j` of file `i` sits at position TotalRows(files[..i]) + j of the
      combined table and carries file `i`'s date: files in their given order,
      rows in their order within each file. */
  lemma {:induction false} CombineWithPlacement<R>(files: seq<DailyFile<R>>, parse: Parser, i: int, j: int)
    requires CombineWith(files, parse).Ok?
    requires 0 <= i < |files| && 0 <= j < |files[i].rows|
    ensures parse(files[i].name).Ok?
    ensures TotalRows(files[..i]) + j < |CombineWith(files, parse).value|
    ensures CombineWith(files, parse).value[TotalRows(files[..i]) + j] == Dated(parse(files[i].name).value, files[i].rows[j])
  {
    var n := |files|;
    var init := files[..n - 1];
    if i == n - 1 {
      assert files[..i] == init;
    } else {
      assert init[..i] == files[..i];
      assert init[i] == files[i];
      CombineWithPlacement(init, parse, i, j);
      assert TotalRows(init) <= TotalRows(files);
    }
  }

  lemma CombinedPlacement<R>(files: seq<DailyFile<R>>, i: int, j: int)
    requires Combine(files).Ok?
    requires 0 <= i < |files| && 0 <= j < |files[i].rows|
    ensures ParseDate(files[i].name).Ok?
    ensures TotalRows(files[..i]) + j < |Combine(files).value|
    ensures Combine(files).value[TotalRows(files[..i]) + j] == Dated(ParseDate(files[i].name).value, files[i].rows[j])
  {
    CombineWithPlacement(files, ParseDate, i, j);
  }

  // ------------------------------------------------------- mask selection

  /** `t[mask]` where `mask` is the element-wise `keep` of each row: the rows
      for which `keep` holds, in their original order. */
  function Where<T>(t: seq<T>, keep: T -> bool): (r: seq<T>)
    ensures |r| <= |t|
    ensures forall k :: 0 <= k < |r| ==> keep(r[k]) && r[k] in t
  {
    if t == [] then []
    else Where(t[..|t| - 1], keep) + (if keep(t[|t| - 1]) then [t[|t| - 1]] else [])
  }

  /** `a` is obtained from `b` by deleting elements: order is preserved. */
  ghost predicate IsSubsequence<T>(a: seq<T>, b: seq<T>)
    decreases |b|
  {
    a == []
    || (b != [] &&
        ((a[|a| - 1] == b[|b| - 1] && IsSubsequence(a[..|a| - 1], b[..|b| - 1]))
         || IsSubsequence(a, b[..|b| - 1])))
  }

  lemma {:induction false} WhereIsSubsequence<T>(t: seq<T>, keep: T -> bool)
    ensures IsSubsequence(Where(t, keep), t)
  {
    if t != [] {
      var init, x := t[..|t| - 1], t[|t| - 1];
      WhereIsSubsequence(init, keep);
      if keep(x) {
        assert Where(t, keep)[..|Where(t, keep)| - 1] == Where(init, keep);
      } else {
        assert Where(t, keep) == Where(init, keep) + [] == Where(init, keep);
      }
    }
  }

  /** Each row value occurs in the selection exactly as often as in the
      table if it satisfies `keep`, and not at all otherwise. */
  lemma {:induction false} WhereCounts<T>(t: seq<T>, keep: T -> bool, x: T)
    ensures multiset(Where(t, keep))[x] == if keep(x) then multiset(t)[x] else 0
  {
    if t != [] {
      var init := t[..|t| - 1];
      WhereCounts(init, keep, x);
      assert t == init + [t[|t| - 1]];
    }
  }

  lemma {:induction false} WhereAppend<T>(a: seq<T>, b: seq<T>, keep: T -> bool)
    ensures Where(a + b, keep) == Where(a, keep) + Where(b, keep)
    decreases |b|
  {
    if b == [] {
      assert a + b == a;
    } else {
      assert (a + b)[..|a + b| - 1] == a + b[..|b| - 1];
      WhereAppend(a, b[..|b| - 1], keep);
    }
  }

  lemma {:induction false} WhereIdempotent<T>(t: seq<T>, keep: T -> bool)
    ensures Where(Where(t, keep), keep) == Where(t, keep)
  {
    if t != [] {
      var init, x := t[..|t| - 1], t[|t| - 1];
      WhereIdempotent(init, keep);
      WhereAppend(Where(init, keep), if keep(x) then [x] else [], keep);
      if keep(x) {
        assert [x][..0] == [];
      }
    }
  }

  /** Nothing is selected when no row satisfies `keep`. */
  lemma {:induction false} WhereNone<T>(t: seq<T>, keep: T -> bool)
    requires forall k :: 0 <= k < |t| ==> !keep(t[k])
    ensures Where(t, keep) == []
  {
    if t != [] {
      WhereNone(t[..|t| - 1], keep);
    }
  }

  // --------------------------------------------------------- window filter

  /** `cat_df[cat_df['date'] >= cutoff_date]`. */
  function Since<R>(t: seq<Dated<R>>, cutoff: Instant): (w: seq<Dated<R>>)
    ensures |w| <= |t|
    ensures forall k :: 0 <= k < |w| ==> MidnightOnOrAfter(w[k].date, cutoff) && w[k] in t
  {
    Where(t, (x: Dated<R>) => MidnightOnOrAfter(x.date, cutoff))
  }

  /** The window holds exactly the rows dated on or after the cutoff, each as
      often as in the table, in table order. */
  lemma SinceSelectsWindow<R>(t: seq<Dated<R>>, cutoff: Instant)
    ensures forall k :: 0 <= k < |Since(t, cutoff)| ==> MidnightOnOrAfter(Since(t, cutoff)[k].date, cutoff)
    ensures forall x :: multiset(Since(t, cutoff))[x] == if MidnightOnOrAfter(x.date, cutoff) then multiset(t)[x] else 0
    ensures IsSubsequence(Since(t, cutoff), t)
  {
    forall x ensures multiset(Since(t, cutoff))[x] == if MidnightOnOrAfter(x.date, cutoff) then multiset(t)[x] else 0 {
      WhereCounts(t, (x: Dated<R>) => MidnightOnOrAfter(x.date, cutoff), x);
    }
    WhereIsSubsequence(t, (x: Dated<R>) => MidnightOnOrAfter(x.date, cutoff));
  }

  /** Filtering an already filtered window changes nothing. */
  lemma SinceIdempotent<R>(t: seq<Dated<R>>, cutoff: Instant)
    ensures Since(Since(t, cutoff), cutoff) == Since(t, cutoff)
  {
    WhereIdempotent(t, (x: Dated<R>) => MidnightOnOrAfter(x.date, cutoff));
  }

  /** Filtering the combined table is filtering each file's rows and combining:
      the window commutes with the aggregation. */
  lemma SinceOfAppend<R>(a: seq<Dated<R>>, b: seq<Dated<R>>, cutoff: Instant)
    ensures Since(a + b, cutoff) == Since(a, cutoff) + Since(b, cutoff)
  {
    WhereAppend(a, b, (x: Dated<R>) => MidnightOnOrAfter(x.date, cutoff));
  }

  // ------------------------------------------------------- derived column

  const LinesChanged := "lines_changed"

  /** `df['lines_changed'] = df['lines_added'] + df['lines_deleted']`, row by row. */
  function WithLinesChanged(t: Table): (r: Table)
    ensures |r| == |t|
    ensures forall k :: 0 <= k < |t| ==>
              r[k].date == t[k].date
              && r[k].fields.category == t[k].fields.category
              && r[k].fields.linesAdded == t[k].fields.linesAdded
              && r[k].fields.linesDeleted == t[k].fields.linesDeleted
              && r[k].fields.linesChanged == Some(t[k].fields.linesAdded + t[k].fields.linesDeleted)
  {
    if t == [] then []
    else
      var x := t[|t| - 1];
      WithLinesChanged(t[..|t| - 1])
      + [x.(fields := x.fields.(linesChanged := Some(x.fields.linesAdded + x.fields.linesDeleted)))]
  }

  /** The table a plot works on: with `lines_changed` derived when that is
      the value column, the table as given otherwise. */
  function Prepared(t: Table, valueCol: string): (p: Table)
    ensures |p| == |t|
    ensures forall k :: 0 <= k < |t| ==> p[k].date == t[k].date && p[k].fields.category == t[k].fields.category
    ensures valueCol != LinesChanged ==> p == t
  {
    if valueCol == LinesChanged then WithLinesChanged(t) else t
  }

  /** A pandas DataFrame of category rows, as an object that can be copied
      and have a column added in place. */
  class Frame {
    var rows: Table

    constructor (rows: Table)
      ensures this.rows == rows
    {
      this.rows := rows;
    }

    /** `df.copy()`: a new frame with the same rows. */
    method Copy() returns (c: Frame)
      ensures fresh(c) && c.rows == rows
    {
      c := new Frame(rows);
    }

    /** `df['lines_changed'] = df['lines_added'] + df['lines_deleted']` on this frame. */
    method AddLinesChanged()
      modifies this
      ensures rows == WithLinesChanged(old(rows))
    {
      rows := WithLinesChanged(rows);
    }
  }

  // ---------------------------------------------------- console formatting

  /** A row as `print_data_table` shows it: the date as `YYYY-MM-DD` text. */
  datatype Shown<R> = Shown(date: string, fields: R)

  /** `df_display['date'] = df_display['date'].dt.strftime('%Y-%m-%d')` on a copy. */
  function DisplayRows<R>(t: seq<Dated<R>>): (r: seq<Shown<R>>)
    requires forall k :: 0 <= k < |t| ==> Valid(t[k].date)
    ensures |r| == |t|
  {
    if t == [] then []
    else
      var x := t[|t| - 1];
      DisplayRows(t[..|t| - 1]) + [Shown(Format(x.date), x.fields)]
  }

  /** Every displayed row keeps its other columns, and its date text reads
      back as the row's date. */
  lemma {:induction false} DisplayRowsRoundTrip<R>(t: seq<Dated<R>>, k: int)
    requires forall i :: 0 <= i < |t| ==> Valid(t[i].date)
    requires 0 <= k < |t|
    ensures DisplayRows(t)[k].fields == t[k].fields
    ensures Strptime(DisplayRows(t)[k].date) == Ok(t[k].date)
  {
    if k == |t| - 1 {
      StrptimeFormat(t[k].date);
    } else {
      DisplayRowsRoundTrip(t[..|t| - 1], k);
    }
  }
}
