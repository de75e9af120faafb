/** The three chart builders: one trace per category, drawn from the rows of
    that category, in the order of first appearance (trend lines and bars)
    or in the fixed order of the categories shown on the published page
    (areas, each filled down to zero). */
module Charts {
  import opened Results
  import opened Tables

  /** The categories the published area chart shows, in drawing order. */
  const CategoriesToVisualize: seq<string> := ["api", "app", "other", "infraestructure"]

  /** The fill colour of each category on the published page. */
  const Palette: map<string, string> := map[
    "api" := "rgba(255, 228, 225, 0.5)",
    "app" := "rgba(255, 250, 205, 0.5)",
    "other" := "rgba(255, 182, 193, 0.5)",
    "infraestructure" := "rgba(173, 216, 230, 0.5)"
  ]

  /** The colour of a category the palette does not name. */
  const FallbackColour := "rgba(200,200,200,0.5)"

  /** How a trace is drawn. */
  datatype Style =
    | LinesMarkers               // `go.Scatter(mode='lines+markers')`
    | Bars                       // `go.Bar`
    | FilledArea(colour: string) // `go.Scatter(fill='tozeroy', mode='none')` in `colour`

  /** One trace: its legend name, the rows it plots (`x` their dates, `y`
      their `valueCol` column) and its style. */
  datatype Trace = Trace(name: string, rows: Table, valueCol: string, style: Style)

  /** A plotly figure: the traces added so far, in order. */
  class Figure {
    var traces: seq<Trace>

    /** `go.Figure()`. */
    constructor ()
      ensures traces == []
    {
      traces := [];
    }

    /** `fig.add_trace(tr)`. */
    method AddTrace(tr: Trace)
      modifies this
      ensures traces == old(traces) + [tr]
    {
      traces := traces + [tr];
    }
  }

  // -------------------------------------------------------------- selection

  /** `df[df['category'] == cat]`. */
  function OfCategory(t: Table, cat: string): (s: Table)
    ensures |s| <= |t|
    ensures forall k :: 0 <= k < |s| ==> s[k].fields.category == cat && s[k] in t
  {
    Where(t, (x: Dated<Row>) => x.fields.category == cat)
  }

  /** The selection holds exactly the rows of the category, each as often
      as in the table, in table order. */
  lemma OfCategoryCounts(t: Table, cat: string, x: Dated<Row>)
    ensures multiset(OfCategory(t, cat))[x] == if x.fields.category == cat then multiset(t)[x] else 0
    ensures IsSubsequence(OfCategory(t, cat), t)
  {
    WhereCounts(t, (x: Dated<Row>) => x.fields.category == cat, x);
    WhereIsSubsequence(t, (x: Dated<Row>) => x.fields.category == cat);
  }

  /** A category with no rows gives an empty trace. */
  lemma OfAbsentCategory(t: Table, cat: string)
    requires forall k :: 0 <= k < |t| ==> t[k].fields.category != cat
    ensures OfCategory(t, cat) == []
  {
    WhereNone(t, (x: Dated<Row>) => x.fields.category == cat);
  }

  /** `df['category']`. */
  function Categories(t: Table): (cs: seq<string>)
    ensures |cs| == |t|
    ensures forall k :: 0 <= k < |t| ==> cs[k] == t[k].fields.category
  {
    if t == [] then [] else Categories(t[..|t| - 1]) + [t[|t| - 1].fields.category]
  }

  /** `Series.unique()`: each value once, in order of first appearance. */
  function Unique(s: seq<string>): (u: seq<string>)
    ensures forall x :: x in u <==> x in s
    ensures forall i, j :: 0 <= i < j < |u| ==> u[i] != u[j]
  {
    if s == [] then []
    else
      var u := Unique(s[..|s| - 1]);
      assert forall x :: x in s <==> x in s[..|s| - 1] || x == s[|s| - 1];
      if s[|s| - 1] in u then u else u + [s[|s| - 1]]
  }

  /** The index of the first occurrence of `x` in `s`. */
  function FirstIndex(s: seq<string>, x: string): (i: nat)
    requires x in s
    ensures i < |s| && s[i] == x && x !in s[..i]
  {
    if s[0] == x then 0
    else
      assert x in s[1..];
      var i := FirstIndex(s[1..], x);
      assert s[..i + 1] == [s[0]] + s[1..][..i];
      i + 1
  }

  lemma FirstIndexOfPrefix(s: seq<string>, n: nat, x: string)
    requires n <= |s| && x in s[..n]
    ensures x in s && FirstIndex(s[..n], x) == FirstIndex(s, x)
  {
    var i := FirstIndex(s[..n], x);
    var j := FirstIndex(s, x);
    forall k | 0 <= k < j ensures s[k] != x {
      assert s[..j][k] == s[k];
    }
    forall k | 0 <= k < i ensures s[k] != x {
      assert s[..n][..i][k] == s[k];
    }
  }

  /** `unique()` lists the values in the order they first appear. */
  lemma {:induction false} UniqueFirstAppearance(s: seq<string>)
    ensures forall i, j :: 0 <= i < j < |Unique(s)| ==> FirstIndex(s, Unique(s)[i]) < FirstIndex(s, Unique(s)[j])
  {
    if s != [] {
      var init, x := s[..|s| - 1], s[|s| - 1];
      var u := Unique(init);
      UniqueFirstAppearance(init);
      forall y | y in u ensures y in s && FirstIndex(s, y) == FirstIndex(init, y) {
        FirstIndexOfPrefix(s, |s| - 1, y);
      }
      if x !in u {
        assert x !in init;
        assert FirstIndex(s, x) == |s| - 1;
        forall i | 0 <= i < |u| ensures FirstIndex(s, u[i]) < |s| - 1 {
          assert u[i] in u;
        }
      }
    }
  }

  // ------------------------------------------------------------------ traces

  /** The traces of a chart: for each listed category, in order, its rows of `t`. */
  function Traces(t: Table, cats: seq<string>, valueCol: string, styleOf: string -> Style): (trs: seq<Trace>)
    ensures |trs| == |cats|
    ensures forall k :: 0 <= k < |cats| ==>
              trs[k] == Trace(cats[k], OfCategory(t, cats[k]), valueCol, styleOf(cats[k]))
  {
    if cats == [] then []
    else
      var c := cats[|cats| - 1];
      Traces(t, cats[..|cats| - 1], valueCol, styleOf) + [Trace(c, OfCategory(t, c), valueCol, styleOf(c))]
  }

  /** One more category adds its trace at the end. */
  lemma TracesSnoc(t: Table, cats: seq<string>, i: nat, valueCol: string, styleOf: string -> Style)
    requires i < |cats|
    ensures Traces(t, cats[..i + 1], valueCol, styleOf)
            == Traces(t, cats[..i], valueCol, styleOf) + [Trace(cats[i], OfCategory(t, cats[i]), valueCol, styleOf(cats[i]))]
  {
    assert cats[..i + 1][..i] == cats[..i];
  }

  /** The traces of `plot_category_trends` and `plot_category_bar`: one per
      value of the category column, in order of first appearance. */
  function CategoryTraces(t: Table, valueCol: string, style: Style): seq<Trace>
  {
    Traces(t, Unique(Categories(t)), valueCol, _ => style)
  }

  /** `palette.get(cat, 'rgba(200,200,200,0.5)')`. */
  function Colour(palette: map<string, string>, cat: string): string
  {
    if cat in palette then palette[cat] else FallbackColour
  }

  /** The traces of `plot_category_area`: one per category to visualise, in
      that order, filled in the category's colour. */
  function AreaTraces(t: Table, valueCol: string, palette: map<string, string>): seq<Trace>
  {
    Traces(t, CategoriesToVisualize, valueCol, c => FilledArea(Colour(palette, c)))
  }

  /** All the rows of a list of traces, trace after trace. */
  function TraceRows(trs: seq<Trace>): Table
  {
    if trs == [] then [] else TraceRows(trs[..|trs| - 1]) + trs[|trs| - 1].rows
  }

  /** For distinct categories, the traces together hold exactly the rows
      whose category is listed, each as often as in the table. */
  lemma {:induction false} TracesPartition(t: Table, cats: seq<string>, valueCol: string, styleOf: string -> Style, x: Dated<Row>)
    requires forall i, j :: 0 <= i < j < |cats| ==> cats[i] != cats[j]
    ensures multiset(TraceRows(Traces(t, cats, valueCol, styleOf)))[x]
            == if x.fields.category in cats then multiset(t)[x] else 0
  {
    if cats != [] {
      var init, c := cats[..|cats| - 1], cats[|cats| - 1];
      TracesPartition(t, init, valueCol, styleOf, x);
      OfCategoryCounts(t, c, x);
      var trs := Traces(t, cats, valueCol, styleOf);
      assert trs[..|trs| - 1] == Traces(t, init, valueCol, styleOf);
      assert c !in init by {
        forall i | 0 <= i < |init| ensures init[i] != c { }
      }
      assert x.fields.category in cats <==> x.fields.category in init || x.fields.category == c;
    }
  }

  /** Trend lines and bars partition the table: every row lands in exactly
      one trace, each as often as in the table. */
  lemma CategoryTracesPartition(t: Table, valueCol: string, style: Style)
    ensures forall x :: multiset(TraceRows(CategoryTraces(t, valueCol, style)))[x] == multiset(t)[x]
  {
    var cats := Unique(Categories(t));
    forall x ensures multiset(TraceRows(CategoryTraces(t, valueCol, style)))[x] == multiset(t)[x] {
      TracesPartition(t, cats, valueCol, _ => style, x);
      if x in t {
        var k :| 0 <= k < |t| && t[k] == x;
        assert Categories(t)[k] == x.fields.category;
      }
    }
  }

  /** Each trend or bar trace is named after a category, drawn in the given
      style, and holds only rows of that category; every category of the
      table has a trace, and no two traces share a name. */
  lemma CategoryTracesNamed(t: Table, valueCol: string, style: Style)
    ensures forall k :: 0 <= k < |CategoryTraces(t, valueCol, style)| ==>
              var tr := CategoryTraces(t, valueCol, style)[k];
              tr.style == style && tr.valueCol == valueCol
              && (forall i :: 0 <= i < |tr.rows| ==> tr.rows[i].fields.category == tr.name)
    ensures forall c :: c in Categories(t) <==> exists k :: 0 <= k < |CategoryTraces(t, valueCol, style)|
                                                            && CategoryTraces(t, valueCol, style)[k].name == c
    ensures forall i, j :: 0 <= i < j < |CategoryTraces(t, valueCol, style)| ==>
              CategoryTraces(t, valueCol, style)[i].name != CategoryTraces(t, valueCol, style)[j].name
  {
    var cats := Unique(Categories(t));
    var trs := CategoryTraces(t, valueCol, style);
    forall c | c in Categories(t)
      ensures exists k :: 0 <= k < |trs| && trs[k].name == c
    {
      var k :| 0 <= k < |cats| && cats[k] == c;
      assert trs[k].name == c;
    }
    forall c | exists k :: 0 <= k < |trs| && trs[k].name == c
      ensures c in Categories(t)
    {
      var k :| 0 <= k < |trs| && trs[k].name == c;
      assert cats[k] in cats;
    }
  }

  /** The area chart holds exactly the rows of the four categories shown,
      each once; rows of any other category are left out of the chart. */
  lemma AreaTracesSelect(t: Table, valueCol: string, palette: map<string, string>)
    ensures |AreaTraces(t, valueCol, palette)| == 4
    ensures forall x :: multiset(TraceRows(AreaTraces(t, valueCol, palette)))[x]
                        == if x.fields.category in CategoriesToVisualize then multiset(t)[x] else 0
    ensures forall k :: 0 <= k < 4 ==>
              AreaTraces(t, valueCol, palette)[k]
              == Trace(CategoriesToVisualize[k], OfCategory(t, CategoriesToVisualize[k]), valueCol,
                       FilledArea(Colour(palette, CategoriesToVisualize[k])))
  {
    forall x ensures multiset(TraceRows(AreaTraces(t, valueCol, palette)))[x]
                     == if x.fields.category in CategoriesToVisualize then multiset(t)[x] else 0 {
      TracesPartition(t, CategoriesToVisualize, valueCol, c => FilledArea(Colour(palette, c)), x);
    }
  }

  /** A category missing from the window still gets its (empty) area trace,
      in its colour: the legend always lists the four categories. */
  lemma AreaTraceOfAbsentCategory(t: Table, valueCol: string, palette: map<string, string>, k: int)
    requires 0 <= k < 4
    requires forall i :: 0 <= i < |t| ==> t[i].fields.category != CategoriesToVisualize[k]
    ensures AreaTraces(t, valueCol, palette)[k]
            == Trace(CategoriesToVisualize[k], [], valueCol, FilledArea(Colour(palette, CategoriesToVisualize[k])))
  {
    OfAbsentCategory(t, CategoriesToVisualize[k]);
  }

  /** On the published page every category shown has its own palette
      colour; none falls back to grey. */
  lemma PaletteCoversShownCategories()
    ensures forall c :: c in CategoriesToVisualize ==> Colour(Palette, c) != FallbackColour
  {
  }

  // ------------------------------------------------------------ the plots

  /** The opening of every plot: when the value column is `lines_changed`,
      rebind `df` to a copy and add the column to the copy; otherwise use
      `df` as it is. The caller's frame is never changed. */
  method Prepare(df: Frame, valueCol: string) returns (work: Frame)
    ensures unchanged(df)
    ensures work.rows == Prepared(df.rows, valueCol)
    ensures work == df || fresh(work)
  {
    work := df;
    if valueCol == LinesChanged {
      work := df.Copy();
      work.AddLinesChanged();
    }
  }

  /** `plot_category_trends` / `plot_category_bar`: derive `lines_changed` on
      a copy when it is the value column, then add one trace per distinct
      category. The caller's frame is left as it was. */
  method PlotByCategory(df: Frame, valueCol: string, style: Style) returns (fig: Figure)
    ensures fresh(fig) && unchanged(df)
    ensures fig.traces == CategoryTraces(Prepared(df.rows, valueCol), valueCol, style)
  {
    fig := new Figure();
    var work := Prepare(df, valueCol);
    var styleOf: string -> Style := _ => style;
    var cats := Unique(Categories(work.rows));
    for i := 0 to |cats|
      invariant work.rows == Prepared(df.rows, valueCol)
      invariant fig.traces == Traces(work.rows, cats[..i], valueCol, styleOf)
    {
      var sub := OfCategory(work.rows, cats[i]);
      fig.AddTrace(Trace(cats[i], sub, valueCol, style));
      TracesSnoc(work.rows, cats, i, valueCol, styleOf);
    }
    assert cats[..|cats|] == cats;
  }

  /** `plot_category_trends`: a `lines+markers` scatter per category. */
  method PlotCategoryTrends(df: Frame, valueCol: string) returns (fig: Figure)
    ensures fresh(fig) && unchanged(df)
    ensures fig.traces == CategoryTraces(Prepared(df.rows, valueCol), valueCol, LinesMarkers)
  {
    fig := PlotByCategory(df, valueCol, LinesMarkers);
  }

  /** `plot_category_bar`: a bar series per category. */
  method PlotCategoryBar(df: Frame, valueCol: string) returns (fig: Figure)
    ensures fresh(fig) && unchanged(df)
    ensures fig.traces == CategoryTraces(Prepared(df.rows, valueCol), valueCol, Bars)
  {
    fig := PlotByCategory(df, valueCol, Bars);
  }

  /** `plot_category_area`: a filled area per category to visualise, in the
      fixed order, coloured from `palette`. */
  method PlotCategoryArea(df: Frame, valueCol: string, palette: map<string, string>) returns (fig: Figure)
    ensures fresh(fig) && unchanged(df)
    ensures fig.traces == AreaTraces(Prepared(df.rows, valueCol), valueCol, palette)
  {
    fig := new Figure();
    var work := Prepare(df, valueCol);
    var styleOf: string -> Style := c => FilledArea(Colour(palette, c));
    var cats := CategoriesToVisualize;
    for i := 0 to |cats|
      invariant work.rows == Prepared(df.rows, valueCol)
      invariant fig.traces == Traces(work.rows, cats[..i], valueCol, styleOf)
    {
      var sub := OfCategory(work.rows, cats[i]);
      var colour := Colour(palette, cats[i]);
      fig.AddTrace(Trace(cats[i], sub, valueCol, FilledArea(colour)));
      TracesSnoc(work.rows, cats, i, valueCol, styleOf);
    }
    assert cats[..|cats|] == cats;
  }
}
