/** Calendar dates as Python's `datetime` handles them in this script:
    `strptime(s, '%Y-%m-%d')` to read a date out of a file name and
    `strftime('%Y-%m-%d')` to print one. */
module Dates {
  import opened Results

  datatype Date = Date(year: int, month: int, day: int)

  /** Why `strptime` raised `ValueError`. */
  datatype ParseError =
    | NoMatch                        // "time data ... does not match format"
    | UnconvertedData(rest: string)  // "unconverted data remains: ..."
    | OutOfRange                     // the fields name no day of the calendar

  const MinYear := 1
  const MaxYear := 9999

  predicate IsLeapYear(y: int)
  {
    y % 4 == 0 && (y % 100 != 0 || y % 400 == 0)
  }

  function DaysInMonth(y: int, m: int): (n: int)
    requires 1 <= m <= 12
    ensures 28 <= n <= 31
    ensures n == 29 <==> m == 2 && IsLeapYear(y)
    ensures n == 28 <==> m == 2 && !IsLeapYear(y)
    ensures n == 30 <==> m in {4, 6, 9, 11}
  {
    if m == 2 then (if IsLeapYear(y) then 29 else 28)
    else if m == 4 || m == 6 || m == 9 || m == 11 then 30
    else 31
  }

  /** A day of the proleptic Gregorian calendar that `datetime` can represent. */
  predicate Valid(d: Date)
  {
    MinYear <= d.year <= MaxYear && 1 <= d.month <= 12 && 1 <= d.day <= DaysInMonth(d.year, d.month)
  }

  /** `a >= b` on dates (lexicographic on year, month, day). */
  predicate OnOrAfter(a: Date, b: Date)
  {
    a.year > b.year
    || (a.year == b.year && a.month > b.month)
    || (a.year == b.year && a.month == b.month && a.day >= b.day)
  }

  /** One day earlier, `None` when that would fall before 0001-01-01
      (where `datetime` arithmetic raises `OverflowError`). */
  function PrevDay(d: Date): (r: Option<Date>)
    requires Valid(d)
    ensures r.Some? <==> d != Date(MinYear, 1, 1)
    ensures r.Some? ==> Valid(r.value) && !OnOrAfter(r.value, d)
  {
    if d.day > 1 then Some(Date(d.year, d.month, d.day - 1))
    else if d.month > 1 then Some(Date(d.year, d.month - 1, DaysInMonth(d.year, d.month - 1)))
    else if d.year > MinYear then Some(Date(d.year - 1, 12, 31))
    else None
  }

  /** `d - timedelta(days=n)`, one day at a time. */
  function DaysBefore(d: Date, n: nat): (r: Option<Date>)
    requires Valid(d)
    ensures r.Some? ==> Valid(r.value) && OnOrAfter(d, r.value)
    ensures r.Some? && n > 0 ==> !OnOrAfter(r.value, d)
    decreases n
  {
    if n == 0 then Some(d)
    else
      match PrevDay(d)
      case None => None
      case Some(p) => DaysBefore(p, n - 1)
  }

  /** A `datetime` with a time of day: the day and the microseconds since its midnight. */
  datatype Instant = Instant(day: Date, micros: int)

  const MicrosPerDay := 86_400_000_000

  predicate ValidInstant(t: Instant)
  {
    Valid(t.day) && 0 <= t.micros < MicrosPerDay
  }

  /** `t - timedelta(days=n)`: the same time of day, `n` days earlier. */
  function InstantDaysBefore(t: Instant, n: nat): (r: Option<Instant>)
    requires ValidInstant(t)
    ensures r.Some? ==> ValidInstant(r.value) && r.value.micros == t.micros
  {
    match DaysBefore(t.day, n)
    case None => None
    case Some(d) => Some(Instant(d, t.micros))
  }

  /** `d >= t` for a date read by `strptime` (midnight of its day) and an
      instant: a later day, or the same day when `t` is exactly midnight. */
  predicate MidnightOnOrAfter(d: Date, t: Instant)
  {
    OnOrAfter(d, t.day) && (d != t.day || t.micros == 0)
  }

  // ------------------------------------------------------------ characters

  predicate IsDigit(c: char) { '0' <= c <= '9' }

  function DigitValue(c: char): (v: int)
    requires IsDigit(c)
    ensures 0 <= v <= 9
  {
    c as int - '0' as int
  }

  function DigitChar(v: int): (c: char)
    requires 0 <= v <= 9
    ensures IsDigit(c) && DigitValue(c) == v
  {
    ('0' as int + v) as char
  }

  /** `%02d`. */
  function Pad2(n: int): (s: string)
    requires 0 <= n <= 99
    ensures |s| == 2 && IsDigit(s[0]) && IsDigit(s[1])
    ensures 10 * DigitValue(s[0]) + DigitValue(s[1]) == n
  {
    [DigitChar(n / 10), DigitChar(n % 10)]
  }

  /** `%04d`. */
  function Pad4(n: int): (s: string)
    requires 0 <= n <= 9999
    ensures |s| == 4 && forall k :: 0 <= k < 4 ==> IsDigit(s[k])
    ensures 1000 * DigitValue(s[0]) + 100 * DigitValue(s[1]) + 10 * DigitValue(s[2]) + DigitValue(s[3]) == n
  {
    var hi, lo := Pad2(n / 100), Pad2(n % 100);
    assert (hi + lo)[0] == hi[0] && (hi + lo)[1] == hi[1] && (hi + lo)[2] == lo[0] && (hi + lo)[3] == lo[1];
    hi + lo
  }

  /** `d.strftime('%Y-%m-%d')`. */
  function Format(d: Date): (s: string)
    requires Valid(d)
    ensures |s| == 10 && s[4] == '-' && s[7] == '-'
    ensures forall k :: 0 <= k < 10 && k != 4 && k != 7 ==> IsDigit(s[k])
  {
    FormatFields(d.year, d.month, d.day)
  }

  /** The zero-padded `YYYY-MM-DD` text of three fields, whether or not they name a real day. */
  function FormatFields(y: int, m: int, d: int): (s: string)
    requires 0 <= y <= 9999 && 0 <= m <= 99 && 0 <= d <= 99
  {
    Pad4(y) + "-" + Pad2(m) + "-" + Pad2(d)
  }

  // --------------------------------------------------------------- strptime

  /** What one regular-expression group consumed: its value and its width. */
  datatype Token = Token(value: int, width: nat)

  /** The `%m` group `(1[0-2]|0[1-9]|[1-9])` followed by the literal `-`.
      Alternatives are tried in order; because the `-` must follow, at most
      one of them can take part in a match. */
  function MatchMonth(s: string): (t: Option<Token>)
    ensures t.Some? ==> 1 <= t.value.value <= 12 && 1 <= t.value.width <= 2
                        && t.value.width < |s| && s[t.value.width] == '-'
  {
    if |s| >= 3 && s[0] == '1' && '0' <= s[1] <= '2' && s[2] == '-' then
      Some(Token(10 + DigitValue(s[1]), 2))
    else if |s| >= 3 && s[0] == '0' && '1' <= s[1] <= '9' && s[2] == '-' then
      Some(Token(DigitValue(s[1]), 2))
    else if |s| >= 2 && '1' <= s[0] <= '9' && s[1] == '-' then
      Some(Token(DigitValue(s[0]), 1))
    else
      None
  }

  /** The `%d` group `(3[01]|[12]\d|0[1-9]|[1-9]| [1-9])`: the first
      alternative that matches a prefix wins, whatever follows it. */
  function MatchDay(s: string): (t: Option<Token>)
    ensures t.Some? ==> 1 <= t.value.value <= 31 && 1 <= t.value.width <= 2 && t.value.width <= |s|
  {
    if |s| >= 2 && s[0] == '3' && '0' <= s[1] <= '1' then
      Some(Token(30 + DigitValue(s[1]), 2))
    else if |s| >= 2 && '1' <= s[0] <= '2' && IsDigit(s[1]) then
      Some(Token(10 * DigitValue(s[0]) + DigitValue(s[1]), 2))
    else if |s| >= 2 && s[0] == '0' && '1' <= s[1] <= '9' then
      Some(Token(DigitValue(s[1]), 2))
    else if |s| >= 1 && '1' <= s[0] <= '9' then
      Some(Token(DigitValue(s[0]), 1))
    else if |s| >= 2 && s[0] == ' ' && '1' <= s[1] <= '9' then
      Some(Token(DigitValue(s[1]), 2))
    else
      None
  }

  /** `datetime.strptime(s, '%Y-%m-%d')`: the `%Y` group is exactly four
      digits, the whole string must be consumed, and the fields must name a
      day `datetime` can represent. Only a valid date is ever returned. */
  function Strptime(s: string): (r: Result<Date, ParseError>)
    ensures r.Ok? ==> Valid(r.value)
    ensures r.Ok? ==> |s| >= 8 && s[4] == '-' && exists j :: 5 < j < |s| && s[j] == '-'
  {
    if |s| < 5 || !IsDigit(s[0]) || !IsDigit(s[1]) || !IsDigit(s[2]) || !IsDigit(s[3]) || s[4] != '-' then
      Err(NoMatch)
    else
      var year := 1000 * DigitValue(s[0]) + 100 * DigitValue(s[1]) + 10 * DigitValue(s[2]) + DigitValue(s[3]);
      match MatchMonth(s[5..])
      case None => Err(NoMatch)
      case Some(m) =>
        var rest := s[5 + m.width + 1..];
        match MatchDay(rest)
        case None => Err(NoMatch)
        case Some(d) =>
          if d.width < |rest| then Err(UnconvertedData(rest[d.width..]))
          else
            var date := Date(year, m.value, d.value);
            if Valid(date) then Ok(date) else Err(OutOfRange)
  }

  // ----------------------------------------------------------------- lemmas

  /** On zero-padded `YYYY-MM-DD` text, `strptime` accepts exactly the valid
      dates and reads back the fields that were written; month 00 or 13..99,
      day 00 or 32..99, day 29..31 past the month's end (29 February of a
      common year among them) and year 0000 are all refused. */
  lemma StrptimeOfFields(y: int, m: int, d: int)
    requires 0 <= y <= 9999 && 0 <= m <= 99 && 0 <= d <= 99
    ensures Strptime(FormatFields(y, m, d)).Ok? <==> Valid(Date(y, m, d))
    ensures Strptime(FormatFields(y, m, d)).Ok? ==> Strptime(FormatFields(y, m, d)).value == Date(y, m, d)
  {
    var s := FormatFields(y, m, d);
    var Y, M, D := Pad4(y), Pad2(m), Pad2(d);
    assert s[..4] == Y && s[4] == '-' && s[5..7] == M && s[7] == '-' && s[8..] == D;
    assert s[5..] == M + "-" + D;
    var mm := MatchMonth(s[5..]);
    if 1 <= m <= 12 {
      assert mm == Some(Token(m, 2));
      assert s[5 + 2 + 1..] == D;
      if 1 <= d <= 31 {
        assert MatchDay(D) == Some(Token(d, 2));
      } else if d == 0 {
        assert MatchDay(D) == None;
      } else {
        assert MatchDay(D).Some? && MatchDay(D).value.width == 1;
      }
    } else {
      assert mm == None;
    }
  }

  /** `strptime` reads back what `strftime` wrote. */
  lemma StrptimeFormat(d: Date)
    requires Valid(d)
    ensures Strptime(Format(d)) == Ok(d)
  {
    StrptimeOfFields(d.year, d.month, d.day);
  }

  lemma RejectsMonth13()
    ensures Strptime("2024-13-01") == Err(NoMatch)
  {
    assert "2024-13-01"[5..] == "13-01";
  }

  lemma RejectsDay32()
    ensures Strptime("2024-01-32") == Err(UnconvertedData("2"))
  {
    assert "2024-01-32"[5..] == "01-32";
    assert "2024-01-32"[8..] == "32";
  }

  lemma RejectsFebruary29InCommonYear()
    ensures Strptime("2023-02-29") == Err(OutOfRange)
    ensures Strptime("2024-02-29") == Ok(Date(2024, 2, 29))
  {
    assert "2023-02-29"[5..] == "02-29";
    assert "2023-02-29"[8..] == "29";
    assert "2024-02-29"[5..] == "02-29";
    assert "2024-02-29"[8..] == "29";
  }

  /** `OnOrAfter` is a total order on dates. */
  lemma OnOrAfterOrder(a: Date, b: Date, c: Date)
    ensures OnOrAfter(a, a)
    ensures OnOrAfter(a, b) || OnOrAfter(b, a)
    ensures OnOrAfter(a, b) && OnOrAfter(b, a) ==> a == b
    ensures OnOrAfter(a, b) && OnOrAfter(b, c) ==> OnOrAfter(a, c)
  {
  }

  /** No valid day lies strictly between a day and the one before it. */
  lemma PrevDayAdjacent(d: Date, e: Date)
    requires Valid(d) && Valid(e) && PrevDay(d).Some?
    ensures OnOrAfter(PrevDay(d).value, e) <==> !OnOrAfter(e, d)
  {
  }

  /** `n` days back is `n` single steps back: each step lands on the day
      immediately before the previous one. */
  lemma {:induction false} DaysBeforeStep(d: Date, n: nat)
    requires Valid(d) && DaysBefore(d, n + 1).Some?
    ensures DaysBefore(d, n).Some?
    ensures PrevDay(DaysBefore(d, n).value) == DaysBefore(d, n + 1)
    decreases n
  {
    if n > 0 {
      DaysBeforeStep(PrevDay(d).value, n - 1);
    }
  }

  /** Only a cutoff at exactly midnight lets rows of the cutoff's own day through. */
  lemma MidnightCutoff(d: Date, t: Instant)
    ensures t.micros == 0 ==> (MidnightOnOrAfter(d, t) <==> OnOrAfter(d, t.day))
    ensures t.micros != 0 ==> (MidnightOnOrAfter(d, t) <==> OnOrAfter(d, t.day) && d != t.day)
  {
  }
}
