/** `main`: load every category file, keep the last fifteen days, show them
    as a table and publish the area chart into the page template. */
module Report {
  import opened Results
  import opened Text
  import opened Dates
  import opened Tables
  import opened Charts

  /** How many days back the published chart looks. */
  const NumDays := 15

  /** The placeholder in the page template that the chart replaces. */
  const Marker := "<!--GRAPHS-->"

  /** What a run of the script ends with. */
  datatype Outcome =
    | NoCategoryFiles                  // "No category CSV files found."
    | LoadFailed(error: LoadError)     // a loader raised
    | CutoffOutOfRange                 // `today - 15 days` fell before year 1
    | Published(table: seq<Shown<Row>>, page: string)
      // the table printed to the console and the page written to `index.html`

  /** The page written out: every marker in the template replaced by the chart's HTML. */
  function Page(template: string, chartHtml: string): string
  {
    ReplaceAll(template, Marker, chartHtml)
  }

  /** `main`, given the located category files (already read), the template
      text, the current time and plotly's `to_html` on the traces. */
  method Run(files: seq<DailyFile<Row>>, template: string, now: Instant, toHtml: seq<Trace> -> string)
    returns (out: Outcome)
    requires ValidInstant(now)
    ensures files == [] ==> out == NoCategoryFiles
    ensures files != [] && Combine(files).Err? ==> out == LoadFailed(Combine(files).error)
    ensures files != [] && Combine(files).Ok? && InstantDaysBefore(now, NumDays).None? ==> out == CutoffOutOfRange
    ensures out.Published? <==> files != [] && AllNamesParse(files) && InstantDaysBefore(now, NumDays).Some?
    ensures out.Published? ==>
              var window := Since(Combine(files).value, InstantDaysBefore(now, NumDays).value);
              out.table == DisplayRows(window)
              && out.page == Page(template, toHtml(AreaTraces(Prepared(window, LinesChanged), LinesChanged, Palette)))
  {
    if files == [] {
      return NoCategoryFiles;
    }
    var loaded := LoadStats(files);
    if loaded.Err? {
      return LoadFailed(loaded.error);
    }
    var cutoff := InstantDaysBefore(now, NumDays);
    if cutoff.None? {
      return CutoffOutOfRange;
    }
    var window := Since(loaded.value, cutoff.value);
    var table := DisplayRows(window);
    var frame := new Frame(window);
    var fig := PlotCategoryArea(frame, LinesChanged, Palette);
    var chartHtml := toHtml(fig.traces);
    out := Published(table, Page(template, chartHtml));
  }

  // ----------------------------------------------------------------- lemmas

  /** A template whose only marker sits between `pre` and `post` becomes
      `pre`, the chart, `post`. */
  lemma PageOfSingleMarker(pre: string, post: string, chartHtml: string)
    requires forall i: nat :: i < |pre| ==> !OccursAt(pre + Marker + post, Marker, i)
    requires !Occurs(post, Marker)
    ensures Page(pre + Marker + post, chartHtml) == pre + chartHtml + post
  {
    assert pre + Marker + post == pre + (Marker + post);
    ReplaceSkipsPrefix(pre, Marker + post, Marker, chartHtml);
    assert (Marker + post)[..|Marker|] == Marker;
    assert (Marker + post)[|Marker|..] == post;
    ReplaceAbsent(post, Marker, chartHtml);
  }

  /** The chart takes the marker's place in a minimal page. */
  lemma PageExample()
    ensures Page("<html><!--GRAPHS--></html>", "<div>X</div>") == "<html><div>X</div></html>"
  {
    var pre, post := "<html>", "</html>";
    var s := pre + Marker + post;
    forall i: nat | i < |pre| ensures !OccursAt(s, Marker, i) {
      assert s[i..i + 13][1] == s[i + 1];
    }
    forall i: nat ensures !OccursAt(post, Marker, i) { }
    assert s == "<html><!--GRAPHS--></html>";
    assert pre + "<div>X</div>" + post == "<html><div>X</div></html>";
    PageOfSingleMarker(pre, post, "<div>X</div>");
  }

  /** A template without the marker is published as it is. */
  lemma PageWithoutMarker(template: string, chartHtml: string)
    requires !Occurs(template, Marker)
    ensures Page(template, chartHtml) == template
  {
    ReplaceAbsent(template, Marker, chartHtml);
  }

  /** Every marker is replaced, not only the first. */
  lemma PageReplacesEveryMarker(chartHtml: string)
    ensures Page(Marker + "<hr>" + Marker, chartHtml) == chartHtml + "<hr>" + chartHtml
  {
    var s := Marker + "<hr>" + Marker;
    assert s[..13] == Marker;
    assert s[13..] == "<hr>" + Marker;
    forall i: nat | i < 4 ensures !OccursAt("<hr>" + Marker, Marker, i) {
      assert ("<hr>" + Marker)[i..i + 13][1] == ("<hr>" + Marker)[i + 1];
    }
    assert "<hr>" + Marker == "<hr>" + (Marker + []);
    ReplaceSkipsPrefix("<hr>", Marker, Marker, chartHtml);
    assert Marker[..13] == Marker && Marker[13..] == [];
  }
}
