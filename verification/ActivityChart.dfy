/** The activity chart of a guild: the days of a date range filled in from the rows of a query. */
module ActivityChart {
  import opened Calendar
  import opened DateStrings
  import opened Options

  const ONE_DAY := 86400000

  /** A row of the query; counts are not negative. */
  datatype Row = Row(date: string, messages: nat, members: nat, voiceMinutes: nat)

  datatype Point = Point(date: string, messages: nat, members: nat, voiceMinutes: nat)

  /** `slice(0, 10)`. */
  function DatePart(s: string): string {
    if |s| <= 10 then s else s[..10]
  }

  function PointOfRow(row: Row): Point {
    Point(DatePart(row.date), row.messages, row.members, row.voiceMinutes)
  }

  function EmptyPoint(date: string): Point {
    Point(date, 0, 0, 0)
  }

  /** The last row of a date, or zeros. */
  function PointOn(rows: seq<Row>, date: string): (point: Point)
    ensures point.date == date
  {
    if rows == [] then EmptyPoint(date)
    else
      var row := rows[|rows| - 1];
      if DatePart(row.date) == date then PointOfRow(row) else PointOn(rows[..|rows| - 1], date)
  }

  /** One point for each date. */
  function Chart(rows: seq<Row>, dates: seq<string>): (chart: seq<Point>)
    ensures |chart| == |dates|
  {
    if dates == [] then []
    else Chart(rows, dates[..|dates| - 1]) + [PointOn(rows, dates[|dates| - 1])]
  }

  /** All of n days have four-digit years. */
  ghost predicate DaysInYears(first: int, n: nat) {
    forall d :: first <= d < first + n ==> FourDigitYear(d)
  }

  /** The dates of n days. */
  function DatesFrom(first: int, n: nat): (dates: seq<string>)
    requires DaysInYears(first, n)
    ensures |dates| == n
  {
    if n == 0 then [] else DatesFrom(first, n - 1) + [DateOf(first + n - 1)]
  }

  /** Days from the first date to the last, both counted. */
  function Span(first: int, last: int): nat {
    if last < first then 0 else last - first + 1
  }

  /** `getActivityChartByGuildId` after its query: rows into a map by date, then a loop over the days
      in milliseconds. What `Date` makes of a string other than a calendar date in full is left open. */
  method GetActivityChart(from: string, to: string, rows: seq<Row>) returns (out: seq<Point>)
    ensures |from| >= 10 && |to| >= 10 ==>
            var first, last := ParseDate(from[..10]), ParseDate(to[..10]);
            first.Some? && last.Some? ==>
              && DaysInYears(first.value, Span(first.value, last.value))
              && out == Chart(rows, DatesFrom(first.value, Span(first.value, last.value)))
              && |out| == if first.value <= last.value then last.value - first.value + 1 else 0
  {
    NoDates(rows);
    DatePartOf(from);
    DatePartOf(to);
    hide FourDigitYear, ParseDate, DateOf, Chart, DatesFrom, DatePart;
    var byDate := ByDate(rows);
    out := [];
    var first, last := ParseDate(DatePart(from)), ParseDate(DatePart(to));
    if first.None? || last.None? {
      return;
    }
    RangeInYears(DatePart(from), DatePart(to));
    var fromMs, toMs := first.value * ONE_DAY, last.value * ONE_DAY;
    var t := fromMs;
    ghost var n := 0;
    while t <= toMs
      invariant t == (first.value + n) * ONE_DAY
      invariant 0 <= n <= Span(first.value, last.value)
      invariant out == Chart(rows, DatesFrom(first.value, n))
      decreases toMs - t
    {
      var d := DateOf(DayOfTime(t, first.value + n));
      ChartGrows(rows, first.value, n);
      out := out + [if d in byDate then byDate[d] else EmptyPoint(d)];
      t := t + ONE_DAY;
      n := n + 1;
    }
  }

  lemma NoDates(rows: seq<Row>)
    ensures forall first :: DatesFrom(first, 0) == []
    ensures Chart(rows, []) == []
  {
  }

  lemma RangeInYears(from: string, to: string)
    requires ParseDate(from).Some? && ParseDate(to).Some?
    ensures DaysInYears(ParseDate(from).value, Span(ParseDate(from).value, ParseDate(to).value))
  {
    hide FourDigitYear, ParseDate, DateOf;
    DateOfParse(from);
    DateOfParse(to);
    var first, last := ParseDate(from).value, ParseDate(to).value;
    forall d | first <= d < first + Span(first, last)
      ensures FourDigitYear(d)
    {
      DaysBetween(first, last, d);
    }
  }

  lemma ChartGrows(rows: seq<Row>, first: int, n: nat)
    requires DaysInYears(first, n + 1)
    ensures Chart(rows, DatesFrom(first, n + 1))
            == Chart(rows, DatesFrom(first, n)) + [PointOn(rows, DateOf(first + n))]
  {
    hide FourDigitYear, DateOf, PointOn;
    assert DatesFrom(first, n + 1)[..n] == DatesFrom(first, n);
  }

  /** The day of a time value at the start of a day. */
  function DayOfTime(t: int, ghost day: int): (d: int)
    requires t == day * ONE_DAY
    ensures d == day
  {
    t / ONE_DAY
  }

  method ByDate(rows: seq<Row>) returns (byDate: map<string, Point>)
    ensures forall date :: PointOn(rows, date) == if date in byDate then byDate[date] else EmptyPoint(date)
  {
    byDate := map[];
    var r := 0;
    while r < |rows|
      invariant 0 <= r <= |rows|
      invariant forall date :: PointOn(rows[..r], date) == if date in byDate then byDate[date] else EmptyPoint(date)
    {
      assert rows[..r + 1][..r] == rows[..r];
      byDate := byDate[DatePart(rows[r].date) := PointOfRow(rows[r])];
      r := r + 1;
    }
    assert rows[..r] == rows;
  }

  // ----- The dates of the chart -----

  lemma {:induction false} DatesAt(first: int, n: nat, k: nat)
    requires DaysInYears(first, n) && k < n
    ensures DatesFrom(first, n)[k] == DateOf(first + k)
    decreases n
  {
    hide FourDigitYear, DateOf;
    if k < n - 1 {
      DatesAt(first, n - 1, k);
    }
  }

  /** Dates of later days are later strings, so that no date comes twice. */
  lemma DatesIncrease(first: int, n: nat, j: nat, k: nat)
    requires DaysInYears(first, n) && j < k < n
    ensures LexLess(DatesFrom(first, n)[j], DatesFrom(first, n)[k])
    ensures DatesFrom(first, n)[j] != DatesFrom(first, n)[k]
  {
    hide FourDigitYear, DateOf, LexLess;
    DatesAt(first, n, j);
    DatesAt(first, n, k);
    DatesOrdered(first + j, first + k);
    LexLessIrreflexive(DateOf(first + j));
  }

  /** The dates are exactly the calendar's dates from the first to the last day. */
  lemma DatesAreTheRange(first: int, n: nat, date: string)
    requires DaysInYears(first, n)
    ensures date in DatesFrom(first, n)
            <==> ParseDate(date).Some? && first <= ParseDate(date).value < first + n
  {
    hide FourDigitYear, DateOf, ParseDate, DatesFrom;
    if date in DatesFrom(first, n) {
      var k: nat :| k < n && DatesFrom(first, n)[k] == date;
      DatesAt(first, n, k);
      ParseOfDate(first + k);
    }
    if ParseDate(date).Some? && first <= ParseDate(date).value < first + n {
      DatesAt(first, n, ParseDate(date).value - first);
      DateOfParse(date);
    }
  }

  // ----- The points of the chart -----

  lemma {:induction false} ChartAt(rows: seq<Row>, dates: seq<string>, k: nat)
    requires k < |dates|
    ensures Chart(rows, dates)[k] == PointOn(rows, dates[k])
    decreases |dates|
  {
    hide PointOn;
    if k < |dates| - 1 {
      ChartAt(rows, dates[..|dates| - 1], k);
    }
  }

  ghost predicate NoneTwice(dates: seq<string>) {
    forall j, k :: 0 <= j < k < |dates| ==> dates[j] != dates[k]
  }

  /** The query filters on the range and groups by day: every row has a date of the range, and no two
      rows the same. */
  ghost predicate OneRowPerDate(rows: seq<Row>, dates: seq<string>) {
    && (forall row <- rows :: DatePart(row.date) in dates)
    && (forall j, k :: 0 <= j < k < |rows| ==> DatePart(rows[j].date) != DatePart(rows[k].date))
  }

  /** Each row is in the chart on its own day and unchanged; a day without a row is zero. */
  lemma EachDayShowsItsRow(rows: seq<Row>, dates: seq<string>, k: nat)
    requires OneRowPerDate(rows, dates) && k < |dates|
    ensures forall row <- rows :: DatePart(row.date) == dates[k] ==> Chart(rows, dates)[k] == PointOfRow(row)
    ensures (forall row <- rows :: DatePart(row.date) != dates[k]) ==> Chart(rows, dates)[k] == EmptyPoint(dates[k])
  {
    hide DatePart, PointOfRow, PointOn;
    ChartAt(rows, dates, k);
    forall row <- rows | DatePart(row.date) == dates[k]
      ensures PointOn(rows, dates[k]) == PointOfRow(row)
    {
      OnlyRowOfDate(rows, row);
    }
    if forall row <- rows :: DatePart(row.date) != dates[k] {
      NoRowOfDate(rows, dates[k]);
    }
  }

  /** The day of a row shows the row's own numbers, under the first ten characters of its date. */
  lemma RowIsShownUnchanged(rows: seq<Row>, dates: seq<string>, k: nat, row: Row)
    requires OneRowPerDate(rows, dates) && k < |dates| && row in rows
    requires |row.date| >= 10 && row.date[..10] == dates[k]
    ensures var point := Chart(rows, dates)[k];
            && point.date == row.date[..10] && point.messages == row.messages
            && point.members == row.members && point.voiceMinutes == row.voiceMinutes
  {
    DatePartOf(row.date);
    EachDayShowsItsRow(rows, dates, k);
    assert Chart(rows, dates)[k] == PointOfRow(row);
  }

  lemma DatePartOf(s: string)
    ensures |s| >= 10 ==> DatePart(s) == s[..10]
  {
  }

  /** A day that no row has is all zeros. */
  lemma EmptyDayIsZero(rows: seq<Row>, dates: seq<string>, k: nat)
    requires OneRowPerDate(rows, dates) && k < |dates| && forall row <- rows :: !(dates[k] <= row.date)
    ensures Chart(rows, dates)[k] == Point(dates[k], 0, 0, 0)
  {
    forall row <- rows
      ensures DatePart(row.date) != dates[k]
    {
      assert DatePart(row.date) <= row.date;
    }
    EachDayShowsItsRow(rows, dates, k);
  }

  lemma {:induction false} OnlyRowOfDate(rows: seq<Row>, row: Row)
    requires forall j, k :: 0 <= j < k < |rows| ==> DatePart(rows[j].date) != DatePart(rows[k].date)
    requires row in rows
    ensures PointOn(rows, DatePart(row.date)) == PointOfRow(row)
  {
    hide DatePart, PointOfRow;
    var last := |rows| - 1;
    if row != rows[last] {
      var j :| 0 <= j < |rows| && rows[j] == row;
      assert row in rows[..last];
      OnlyRowOfDate(rows[..last], row);
    }
  }

  lemma {:induction false} NoRowOfDate(rows: seq<Row>, date: string)
    requires forall row <- rows :: DatePart(row.date) != date
    ensures PointOn(rows, date) == EmptyPoint(date)
  {
    hide DatePart;
    if rows != [] {
      assert rows[|rows| - 1] in rows;
      NoRowOfDate(rows[..|rows| - 1], date);
    }
  }

  // ----- Column sums -----

  datatype Column = Messages | Members | VoiceMinutes

  function Value(point: Point, column: Column): nat {
    match column
    case Messages => point.messages
    case Members => point.members
    case VoiceMinutes => point.voiceMinutes
  }

  function Sum(points: seq<Point>, column: Column): nat {
    if points == [] then 0 else Sum(points[..|points| - 1], column) + Value(points[|points| - 1], column)
  }

  /** The rows' own column. */
  function SumOfRows(rows: seq<Row>, column: Column): nat {
    if rows == [] then 0
    else
      var row := rows[|rows| - 1];
      SumOfRows(rows[..|rows| - 1], column)
      + match column
        case Messages => row.messages
        case Members => row.members
        case VoiceMinutes => row.voiceMinutes
  }

  lemma ColumnOfRow(row: Row)
    ensures Value(PointOfRow(row), Messages) == row.messages
    ensures Value(PointOfRow(row), Members) == row.members
    ensures Value(PointOfRow(row), VoiceMinutes) == row.voiceMinutes
  {
  }

  lemma {:induction false} SumAppend(points: seq<Point>, point: Point, column: Column)
    ensures Sum(points + [point], column) == Sum(points, column) + Value(point, column)
  {
    assert (points + [point])[..|points|] == points;
  }

  lemma {:induction false} SumUpdate(points: seq<Point>, k: nat, point: Point, column: Column)
    requires k < |points|
    ensures Sum(points[k := point], column) == Sum(points, column) - Value(points[k], column) + Value(point, column)
    decreases |points|
  {
    var last := |points| - 1;
    if k < last {
      SumUpdate(points[..last], k, point, column);
      assert points[k := point][..last] == points[..last][k := point];
    } else {
      assert points[k := point][..last] == points[..last];
    }
  }

  lemma {:induction false} NoRows(dates: seq<string>, column: Column)
    ensures Sum(Chart([], dates), column) == 0
    decreases |dates|
  {
    if dates != [] {
      var front, last := dates[..|dates| - 1], dates[|dates| - 1];
      NoRows(front, column);
      SumAppend(Chart([], front), PointOn([], last), column);
    }
  }

  /** One more row changes the chart on its own day only. */
  lemma OneMoreRow(rows: seq<Row>, row: Row, dates: seq<string>, k: nat)
    requires NoneTwice(dates) && k < |dates| && dates[k] == DatePart(row.date)
    requires forall r <- rows :: DatePart(r.date) != dates[k]
    ensures Chart(rows + [row], dates) == Chart(rows, dates)[k := PointOfRow(row)]
    ensures Chart(rows, dates)[k] == EmptyPoint(dates[k])
  {
    hide Chart, DatePart, PointOfRow;
    ChartAt(rows, dates, k);
    NoRowOfDate(rows, dates[k]);
    assert (rows + [row])[..|rows|] == rows;
    forall i | 0 <= i < |dates|
      ensures Chart(rows + [row], dates)[i] == Chart(rows, dates)[k := PointOfRow(row)][i]
    {
      ChartAt(rows, dates, i);
      ChartAt(rows + [row], dates, i);
      assert i < k ==> dates[i] != dates[k];
      assert k < i ==> dates[k] != dates[i];
    }
  }

  /** Filling in the days loses and adds nothing: every column of the chart sums to what the rows do. */
  lemma {:induction false} SumsAgree(rows: seq<Row>, dates: seq<string>, column: Column)
    requires NoneTwice(dates) && OneRowPerDate(rows, dates)
    ensures Sum(Chart(rows, dates), column) == SumOfRows(rows, column)
    decreases |rows|
  {
    hide Chart, DatePart, Sum, Value;
    if rows == [] {
      NoRows(dates, column);
    } else {
      var before, row := rows[..|rows| - 1], rows[|rows| - 1];
      assert rows == before + [row];
      assert row in rows;
      var k :| 0 <= k < |dates| && dates[k] == DatePart(row.date);
      SumsAgree(before, dates, column);
      OneMoreRow(before, row, dates, k);
      SumUpdate(Chart(before, dates), k, PointOfRow(row), column);
      ColumnOfRow(row);
      EmptyIsZero(dates[k], column);
    }
  }

  lemma EmptyIsZero(date: string, column: Column)
    ensures Value(EmptyPoint(date), column) == 0
  {
  }

  /** For the dates from the first to the last day, then: the sums agree for whatever rows a query
      returns that filters on these days and groups by day. */
  lemma ChartKeepsSums(rows: seq<Row>, first: int, n: nat, column: Column)
    requires DaysInYears(first, n) && OneRowPerDate(rows, DatesFrom(first, n))
    ensures Sum(Chart(rows, DatesFrom(first, n)), column) == SumOfRows(rows, column)
  {
    hide DatesFrom, OneRowPerDate, Chart, FourDigitYear;
    forall j, k | 0 <= j < k < n
      ensures DatesFrom(first, n)[j] != DatesFrom(first, n)[k]
    {
      DatesIncrease(first, n, j, k);
    }
    SumsAgree(rows, DatesFrom(first, n), column);
  }
}
