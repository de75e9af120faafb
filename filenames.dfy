/** `parse_date`: the date a daily statistics file is named after. */
module Filenames {
  import opened Results
  import opened Text
  import opened Dates

  const Extension := ".csv"

  /** The file name without directories and with every `.csv` removed. */
  function Stem(filename: string): string
  {
    ReplaceAll(Basename(filename), Extension, "")
  }

  /** The `-`-separated components of the stem. */
  function Components(filename: string): (parts: seq<string>)
    ensures |parts| >= 1
  {
    Split(Stem(filename), "-")
  }

  /** `'-'.join(parts[-3:])` read as `%Y-%m-%d`: leading components are
      dropped one at a time until at most three are left. */
  function ParseTail(parts: seq<string>): (r: Result<Date, ParseError>)
    ensures r.Ok? ==> Valid(r.value)
  {
    if |parts| > 3 then ParseTail(parts[1..]) else Strptime(Join(parts, "-"))
  }

  /** `parse_date(filename)`: rejoin the last three components with `-` and
      read them as `%Y-%m-%d`. Whatever precedes them (directories, a prefix
      with dashes of its own) is ignored. */
  function ParseDate(filename: string): (r: Result<Date, ParseError>)
    ensures r.Ok? ==> Valid(r.value)
  {
    ParseTail(Components(filename))
  }

  /** The name the export job gives a daily file: `<prefix>-YYYY-MM-DD.csv`. */
  function DailyName(prefix: string, d: Date): string
    requires Valid(d)
  {
    prefix + "-" + Format(d) + Extension
  }

  // ----------------------------------------------------------------- lemmas

  /** Dropping leading components one by one is slicing off the last three. */
  lemma {:induction false} ParseTailIsLastThree(parts: seq<string>)
    ensures ParseTail(parts) == Strptime(Join(LastN(parts, 3), "-"))
    decreases |parts|
  {
    if |parts| > 3 {
      ParseTailIsLastThree(parts[1..]);
      assert LastN(parts[1..], 3) == LastN(parts, 3);
    }
  }

  /** Formatted dates hold no `.`, so `.csv` cannot occur in them. */
  lemma NoExtensionIn(s: string)
    requires '.' !in s
    ensures !Occurs(s, Extension)
  {
    forall i: nat ensures !OccursAt(s, Extension, i) {
      if i + 4 <= |s| {
        assert s[i..i + 4][0] == s[i];
        assert s[i] in s;
      }
    }
  }

  /** Removing `.csv` from a daily name leaves the prefix (with its own `.csv`s
      removed) followed by the formatted date. */
  lemma StemOfDailyName(prefix: string, d: Date)
    requires Valid(d)
    ensures ReplaceAll(prefix + "-" + Format(d) + Extension, Extension, "")
            == ReplaceAll(prefix, Extension, "") + "-" + Format(d)
  {
    var F := Format(d);
    assert '.' !in "-" + F by {
      forall k | 0 <= k < |"-" + F| ensures ("-" + F)[k] != '.' {
        if k > 0 { assert ("-" + F)[k] == F[k - 1]; }
      }
    }
    NoStraddleAtForeignChar("-" + F, Extension, Extension);
    ReplaceAppend("-" + F, Extension, Extension, "");
    NoExtensionIn("-" + F);
    ReplaceAbsent("-" + F, Extension, "");
    assert Extension[..4] == Extension;
    assert ReplaceAll(Extension, Extension, "") == "";
    assert prefix + "-" + F + Extension == prefix + ("-" + F + Extension);
    NoStraddleAtForeignChar(prefix, "-" + F + Extension, Extension);
    ReplaceAppend(prefix, "-" + F + Extension, Extension, "");
  }

  /** A formatted date has exactly three components: year, month, day. */
  lemma ComponentsOfFormat(d: Date)
    requires Valid(d)
    ensures Split(Format(d), "-") == [Pad4(d.year), Pad2(d.month), Pad2(d.day)]
    ensures Join([Pad4(d.year), Pad2(d.month), Pad2(d.day)], "-") == Format(d)
  {
    var Y, M, D := Pad4(d.year), Pad2(d.month), Pad2(d.day);
    assert '-' !in Y by { forall k | 0 <= k < 4 ensures Y[k] != '-' { assert IsDigit(Y[k]); } }
    assert '-' !in M && '-' !in D;
    SplitAround(Y, '-', M + "-" + D);
    SplitAround(M, '-', D);
    SplitWithout(Y, '-');
    SplitWithout(M, '-');
    SplitWithout(D, '-');
    assert Format(d) == Y + ['-'] + (M + ['-'] + D);
    assert [Y, M, D][1..] == [M, D] && [M, D][1..] == [D];
    assert Join([M, D], "-") == M + "-" + D;
  }

  /** Round trip: the date written into a daily name, under any directory and
      after any prefix (dashes in it included), is the date parsed back. */
  lemma {:induction false} ParseDailyName(dir: string, prefix: string, d: Date)
    requires Valid(d) && '/' !in prefix
    ensures ParseDate(dir + "/" + DailyName(prefix, d)) == Ok(d)
    ensures ParseDate(DailyName(prefix, d)) == Ok(d)
  {
    var name := DailyName(prefix, d);
    var F := Format(d);
    assert '/' !in name by {
      assert name == prefix + ("-" + F + Extension);
      forall k | 0 <= k < |"-" + F + Extension| ensures ("-" + F + Extension)[k] != '/' {
        if 1 <= k < 11 { assert ("-" + F + Extension)[k] == F[k - 1]; }
      }
    }
    BasenameOfJoined(dir, name);
    StemOfDailyName(prefix, d);
    var L := ReplaceAll(prefix, Extension, "");
    SplitAround(L, '-', F);
    ComponentsOfFormat(d);
    var parts := Split(L, "-") + [Pad4(d.year), Pad2(d.month), Pad2(d.day)];
    assert LastN(parts, 3) == [Pad4(d.year), Pad2(d.month), Pad2(d.day)];
    ParseTailIsLastThree(parts);
    StrptimeFormat(d);
  }

  /** The files the exporter writes, `stats-by-category-YYYY-MM-DD.csv`, parse to their date. */
  lemma ParseCategoryFileName(dir: string, d: Date)
    requires Valid(d)
    ensures ParseDate(dir + "/stats-by-category-" + Format(d) + ".csv") == Ok(d)
  {
    var name := dir + "/stats-by-category-" + Format(d) + ".csv";
    assert name == dir + "/" + DailyName("stats-by-category", d);
    ParseDailyName(dir, "stats-by-category", d);
  }

  /** Text with fewer than two dashes is never `%Y-%m-%d`. */
  lemma StrptimeNeedsTwoDashes(p: string, q: string)
    requires '-' !in p && '-' !in q
    ensures Strptime(p).Err?
    ensures Strptime(p + "-" + q).Err?
  {
    forall k | 0 <= k < |p| ensures p[k] != '-' {
      assert p[k] in p;
    }
    var s := p + "-" + q;
    forall k | 0 <= k < |s| && k != |p| ensures s[k] != '-' {
      if k < |p| {
        assert s[k] == p[k] && p[k] in p;
      } else {
        assert s[k] == q[k - |p| - 1] && q[k - |p| - 1] in q;
      }
    }
  }

  /** A stem with fewer than three components never yields a date: the
      rejoined text has fewer than the two dashes `%Y-%m-%d` needs. */
  lemma FewerThanThreeComponentsFail(filename: string)
    requires |Components(filename)| < 3
    ensures ParseDate(filename).Err?
  {
    var parts := Components(filename);
    if |parts| == 1 {
      assert parts[0] in parts;
      SplitPiecesLackSeparator(Stem(filename), '-');
      StrptimeNeedsTwoDashes(parts[0], "");
    } else {
      assert parts[1..] == [parts[1]];
      assert Join(parts, "-") == parts[0] + "-" + parts[1];
      assert parts[0] in parts && parts[1] in parts;
      SplitPiecesLackSeparator(Stem(filename), '-');
      StrptimeNeedsTwoDashes(parts[0], parts[1]);
    }
  }
}
