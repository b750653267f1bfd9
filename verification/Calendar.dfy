/** The proleptic Gregorian calendar of ECMA-262 section 21.4.1, on day numbers counted from
    1970-01-01, and the date strings that the services cut out of `toISOString()`. */
module Calendar {
  const DAYS_BEFORE_MONTH := [0, 31, 59, 90, 120, 151, 181, 212, 243, 273, 304, 334, 365]

  predicate IsLeap(y: int) {
    y % 4 == 0 && (y % 100 != 0 || y % 400 == 0)
  }

  function DaysInYear(y: int): int {
    if IsLeap(y) then 366 else 365
  }

  /** Day number of 1 January of year y. */
  function DayFromYear(y: int): int {
    365 * (y - 1970) + (y - 1969) / 4 - (y - 1901) / 100 + (y - 1601) / 400
  }

  /** Days of the year that lie before month m (0 is January, 12 is the end of the year). */
  function DaysBeforeMonth(m: int, leap: bool): int
    requires 0 <= m <= 12
  {
    DAYS_BEFORE_MONTH[m] + if leap && m >= 2 then 1 else 0
  }

  lemma YearStep(y: int)
    ensures DayFromYear(y + 1) == DayFromYear(y) + DaysInYear(y)
  {
    FourYears(y);
    HundredYears(y);
    FourHundredYears(y);
    LeapCases(y);
  }

  lemma FourYears(y: int)
    ensures (y + 1 - 1969) / 4 == (y - 1969) / 4 + if y % 4 == 0 then 1 else 0
  {
  }

  lemma HundredYears(y: int)
    ensures (y + 1 - 1901) / 100 == (y - 1901) / 100 + if y % 100 == 0 then 1 else 0
  {
  }

  lemma FourHundredYears(y: int)
    ensures (y + 1 - 1601) / 400 == (y - 1601) / 400 + if y % 400 == 0 then 1 else 0
  {
  }

  lemma LeapCases(y: int)
    ensures y % 400 == 0 ==> y % 100 == 0
    ensures y % 100 == 0 ==> y % 4 == 0
  {
  }

  /** The year whose days include day d, looked for from year y on. */
  function SearchYear(d: int, y: int): (r: int)
    ensures DayFromYear(r) <= d < DayFromYear(r + 1)
    decreases d < DayFromYear(y), if d < DayFromYear(y) then DayFromYear(y) - d else d - DayFromYear(y)
  {
    YearStep(y - 1);
    YearStep(y);
    if d < DayFromYear(y) then SearchYear(d, y - 1)
    else if DayFromYear(y + 1) <= d then SearchYear(d, y + 1)
    else y
  }

  function Year(d: int): (y: int)
    ensures DayFromYear(y) <= d < DayFromYear(y + 1)
  {
    SearchYear(d, 1970)
  }

  /** The month (0..11) of the n-th day of a year, looked for from month m down. */
  function SearchMonth(n: int, leap: bool, m: int): (r: int)
    requires 0 <= m < 12
    requires 0 <= n < DaysBeforeMonth(m + 1, leap)
    ensures 0 <= r < 12
    ensures DaysBeforeMonth(r, leap) <= n < DaysBeforeMonth(r + 1, leap)
  {
    if m == 0 || DaysBeforeMonth(m, leap) <= n then m else SearchMonth(n, leap, m - 1)
  }

  function Month(d: int): (m: int)
    ensures 0 <= m < 12
    ensures var n := d - DayFromYear(Year(d)); var leap := IsLeap(Year(d));
            DaysBeforeMonth(m, leap) <= n < DaysBeforeMonth(m + 1, leap)
  {
    YearStep(Year(d));
    SearchMonth(d - DayFromYear(Year(d)), IsLeap(Year(d)), 11)
  }

  /** Day of the month, from 1. */
  function Date(d: int): (r: int)
    ensures 1 <= r <= 31
  {
    d - DayFromYear(Year(d)) - DaysBeforeMonth(Month(d), IsLeap(Year(d))) + 1
  }

  /** MakeDay of ECMA-262: the day number of a year, a month and a day of the month, where the
      month and the day may be out of range and carry over. */
  function MakeDay(y: int, m: int, date: int): int {
    var year := y + m / 12;
    DayFromYear(year) + DaysBeforeMonth(m % 12, IsLeap(year)) + date - 1
  }

  /** Splitting a day into year, month and date and putting it together again, moved by k days,
      moves the day by k days: what `setUTCDate(getUTCDate() + k)` does, across any month or year end. */
  lemma MakeDayShifts(d: int, k: int)
    ensures MakeDay(Year(d), Month(d), Date(d) + k) == d + k
  {
    hide DayFromYear, Year, Month;
  }

  lemma YearsApart(y1: int, y2: int)
    requires y1 <= y2
    ensures DayFromYear(y1) <= DayFromYear(y2)
    decreases y2 - y1
  {
    if y1 < y2 {
      YearStep(y1);
      YearsApart(y1 + 1, y2);
    }
  }

  lemma YearIsMonotone(d1: int, d2: int)
    requires d1 <= d2
    ensures Year(d1) <= Year(d2)
  {
    if Year(d2) < Year(d1) {
      YearsApart(Year(d2) + 1, Year(d1));
    }
  }

  lemma YearUnique(d: int, y: int)
    requires DayFromYear(y) <= d < DayFromYear(y + 1)
    ensures Year(d) == y
  {
    if Year(d) < y {
      YearsApart(Year(d) + 1, y);
    } else if y < Year(d) {
      YearsApart(y + 1, Year(d));
    }
  }

  /** Every date that the calendar has is the date of the day it makes: nothing is lost between the
      fields of a date string and the day number. */
  lemma FieldsOfMakeDay(y: int, m: int, date: int)
    requires 0 <= m < 12
    requires 1 <= date <= DaysBeforeMonth(m + 1, IsLeap(y)) - DaysBeforeMonth(m, IsLeap(y))
    ensures var d := MakeDay(y, m, date); Year(d) == y && Month(d) == m && Date(d) == date
  {
    hide DayFromYear, Year, Month;
    var d := MakeDay(y, m, date);
    var n := DaysBeforeMonth(m, IsLeap(y)) + date - 1;
    assert d == DayFromYear(y) + n;
    MonthsInYear(m, IsLeap(y));
    YearStep(y);
    YearUnique(d, y);
    MonthUnique(n, IsLeap(y), Month(d), m);
  }

  lemma MonthsInYear(m: int, leap: bool)
    requires 0 <= m < 12
    ensures 0 <= DaysBeforeMonth(m, leap) < DaysBeforeMonth(m + 1, leap) <= if leap then 366 else 365
  {
  }

  lemma MonthUnique(n: int, leap: bool, m1: int, m2: int)
    requires 0 <= m1 < 12 && 0 <= m2 < 12
    requires DaysBeforeMonth(m1, leap) <= n < DaysBeforeMonth(m1 + 1, leap)
    requires DaysBeforeMonth(m2, leap) <= n < DaysBeforeMonth(m2 + 1, leap)
    ensures m1 == m2
  {
  }

  /** The months as everybody knows them. */
  function MonthLength(m: int, leap: bool): (n: int)
    requires 0 <= m < 12
    ensures n > 0 && n == DaysBeforeMonth(m + 1, leap) - DaysBeforeMonth(m, leap)
  {
    if m == 1 then if leap then 29 else 28
    else if m in {3, 5, 8, 10} then 30
    else 31
  }

  lemma EpochYear()
    ensures DayFromYear(1970) == 0 && DayFromYear(1971) == 365
  {
  }

  lemma EpochFields()
    ensures Year(0) == 1970 && Month(0) == 0 && Date(0) == 1
  {
    hide DayFromYear, Year, Month;
    EpochYear();
    YearUnique(0, 1970);
    MonthUnique(0, IsLeap(1970), Month(0), 0);
  }

  /** The days of a year by month and date. */
  lemma DayOfFields(d: int)
    ensures d == DayFromYear(Year(d)) + DaysBeforeMonth(Month(d), IsLeap(Year(d))) + Date(d) - 1
    ensures Date(d) <= MonthLength(Month(d), IsLeap(Year(d)))
  {
    hide DayFromYear, Year, Month, MonthLength;
  }

  /** Each day follows the one before as in the calendar: the next day of the month, or the first of
      the next month, or the first of the year. With the epoch this fixes the fields of every day. */
  lemma DayAfter(d: int)
    ensures var y, m := Year(d), Month(d); var leap := y % 4 == 0 && (y % 100 != 0 || y % 400 == 0);
            if Date(d) < MonthLength(m, leap)
            then Year(d + 1) == y && Month(d + 1) == m && Date(d + 1) == Date(d) + 1
            else if m < 11 then Year(d + 1) == y && Month(d + 1) == m + 1 && Date(d + 1) == 1
            else Year(d + 1) == y + 1 && Month(d + 1) == 0 && Date(d + 1) == 1
  {
    hide DayFromYear, Year, Month, Date, MonthLength;
    var y, m := Year(d), Month(d);
    DayOfFields(d);
    if Date(d) < MonthLength(m, IsLeap(y)) {
      FieldsOfDay(y, m, Date(d) + 1, d + 1);
    } else if m < 11 {
      FieldsOfDay(y, m + 1, 1, d + 1);
    } else {
      YearStep(y);
      YearLength(y);
      FieldsOfDay(y + 1, 0, 1, d + 1);
    }
  }

  lemma YearLength(y: int)
    ensures DaysInYear(y) == DaysBeforeMonth(12, IsLeap(y)) && DaysBeforeMonth(0, IsLeap(y + 1)) == 0
  {
  }

  lemma FieldsOfDay(y: int, m: int, date: int, d: int)
    requires 0 <= m < 12 && 1 <= date <= MonthLength(m, IsLeap(y))
    requires d == DayFromYear(y) + DaysBeforeMonth(m, IsLeap(y)) + date - 1
    ensures Year(d) == y && Month(d) == m && Date(d) == date
  {
    hide DayFromYear, Year, Month, Date, MonthLength, IsLeap;
    assert d == MakeDay(y, m, date);
    FieldsOfMakeDay(y, m, date);
  }

  /** Weekday of day d: 0 is Sunday. */
  function WeekDay(d: int): (w: int)
    ensures 0 <= w < 7
  {
    (d + 4) % 7
  }

  // ----- Date strings -----

  function Digit(n: int): char
    requires 0 <= n < 10
  {
    '0' + n as char
  }

  function Pad2(n: int): (s: string)
    requires 0 <= n < 100
    ensures |s| == 2
  {
    [Digit(n / 10), Digit(n % 10)]
  }

  function Pad4(n: int): (s: string)
    requires 0 <= n < 10000
    ensures |s| == 4
  {
    Pad2(n / 100) + Pad2(n % 100)
  }

  function Pad6(n: int): (s: string)
    requires 0 <= n < 1000000
    ensures |s| == 6
  {
    Pad2(n / 10000) + Pad4(n % 10000)
  }

  /** The years that ISO strings write with four digits. */
  predicate FourDigitYear(d: int) {
    0 <= Year(d) < 10000
  }

  /** A day that ISO strings write with a four-digit year. */
  type Day = d: int | FourDigitYear(d) witness 0

  /** The years a JavaScript date can hold are well inside six digits. */
  predicate SixDigitYear(d: int) {
    -1000000 < Year(d) < 1000000
  }

  /** `toISOString().slice(0, 10)`: years outside 0..9999 take a sign and six digits, so that the
      ten characters then end before the day of the month. */
  function IsoDate(d: int): (s: string)
    requires SixDigitYear(d)
    ensures |s| == 10
  {
    var tail := "-" + Pad2(Month(d) + 1) + "-" + Pad2(Date(d));
    if FourDigitYear(d) then Pad4(Year(d)) + tail
    else if Year(d) < 0 then ("-" + Pad6(-Year(d)) + tail)[..10]
    else ("+" + Pad6(Year(d)) + tail)[..10]
  }

  /** The number that digits stand for. */
  function Number(s: string): int {
    if s == "" then 0 else 10 * Number(s[..|s| - 1]) + (s[|s| - 1] as int - '0' as int)
  }

  lemma NumberOfMore(s: string, c: char)
    ensures Number(s + [c]) == 10 * Number(s) + (c as int - '0' as int)
  {
  }

  lemma NumberOfPad2(n: int)
    requires 0 <= n < 100
    ensures Number(Pad2(n)) == n
  {
    NumberOfMore("", Digit(n / 10));
    NumberOfMore([Digit(n / 10)], Digit(n % 10));
  }

  lemma NumberOfPad4(n: int)
    requires 0 <= n < 10000
    ensures Number(Pad4(n)) == n
  {
    var a, m := Pad2(n / 100), n % 100;
    NumberOfPad2(n / 100);
    NumberOfMore(a, Digit(m / 10));
    NumberOfMore(a + [Digit(m / 10)], Digit(m % 10));
    assert Pad4(n) == a + [Digit(m / 10)] + [Digit(m % 10)];
  }

  /** A date string is the year in four digits, the month from 01 and the day of the month in two. */
  lemma IsoDateReads(d: int)
    requires FourDigitYear(d)
    ensures var s := IsoDate(d);
            && s[4] == '-' && s[7] == '-'
            && Number(s[..4]) == Year(d) && Number(s[5..7]) == Month(d) + 1 && Number(s[8..]) == Date(d)
  {
    hide Year, Month, Date, Pad2, Pad4, Number;
    var y, m, t := Pad4(Year(d)), Pad2(Month(d) + 1), Pad2(Date(d));
    NumberOfPad4(Year(d));
    NumberOfPad2(Month(d) + 1);
    NumberOfPad2(Date(d));
    var s := IsoDate(d);
    assert s == y + ("-" + m + "-" + t);
    assert s[..4] == y && s[5..7] == m && s[8..] == t;
  }

  /** Strict lexicographic order of strings. */
  ghost predicate LexLess(a: string, b: string) {
    exists k: nat :: DiffersAt(a, b, k)
  }

  ghost predicate DiffersAt(a: string, b: string, k: nat) {
    k < |a| && k < |b| && a[..k] == b[..k] && a[k] < b[k]
  }

  lemma LexLessExtends(prefix: string, a: string, b: string, ta: string, tb: string)
    requires LexLess(a, b)
    ensures LexLess(prefix + a + ta, prefix + b + tb)
  {
    var k: nat :| DiffersAt(a, b, k);
    assert (prefix + a + ta)[..|prefix| + k] == prefix + a[..k];
    assert (prefix + b + tb)[..|prefix| + k] == prefix + b[..k];
    assert DiffersAt(prefix + a + ta, prefix + b + tb, |prefix| + k);
  }

  lemma LexLessIrreflexive(a: string)
    ensures !LexLess(a, a)
  {
  }

  lemma Pad2Ordered(a: int, b: int)
    requires 0 <= a < b < 100
    ensures LexLess(Pad2(a), Pad2(b))
  {
    if a / 10 < b / 10 {
      assert DiffersAt(Pad2(a), Pad2(b), 0);
    } else {
      assert DiffersAt(Pad2(a), Pad2(b), 1);
    }
  }

  lemma Pad4Ordered(a: int, b: int)
    requires 0 <= a < b < 10000
    ensures LexLess(Pad4(a), Pad4(b))
  {
    if a / 100 < b / 100 {
      Pad2Ordered(a / 100, b / 100);
      LexLessExtends("", Pad2(a / 100), Pad2(b / 100), Pad2(a % 100), Pad2(b % 100));
      assert "" + Pad2(a / 100) + Pad2(a % 100) == Pad4(a);
      assert "" + Pad2(b / 100) + Pad2(b % 100) == Pad4(b);
    } else {
      Pad2Ordered(a % 100, b % 100);
      LexLessExtends(Pad2(a / 100), Pad2(a % 100), Pad2(b % 100), "", "");
      assert Pad2(a / 100) + Pad2(a % 100) + "" == Pad4(a);
      assert Pad2(a / 100) + Pad2(b % 100) + "" == Pad4(b);
    }
  }

  lemma MonthIsMonotone(d1: int, d2: int)
    requires d1 <= d2 && Year(d1) == Year(d2)
    ensures Month(d1) <= Month(d2)
    ensures Month(d1) == Month(d2) && d1 < d2 ==> Date(d1) < Date(d2)
  {
    hide Year, DayFromYear, SearchMonth;
  }

  /** Three two-part fields written one after another sort by the first field that differs. */
  lemma FieldsOrdered(y1: string, m1: string, t1: string, y2: string, m2: string, t2: string)
    requires LexLess(y1, y2) || (y1 == y2 && (LexLess(m1, m2) || (m1 == m2 && LexLess(t1, t2))))
    ensures LexLess(y1 + ("-" + m1 + "-" + t1), y2 + ("-" + m2 + "-" + t2))
  {
    var tail1, tail2 := "-" + m1 + "-" + t1, "-" + m2 + "-" + t2;
    if LexLess(y1, y2) {
      LexLessExtends("", y1, y2, tail1, tail2);
      assert "" + y1 + tail1 == y1 + tail1 && "" + y2 + tail2 == y2 + tail2;
    } else if LexLess(m1, m2) {
      LexLessExtends(y1 + "-", m1, m2, "-" + t1, "-" + t2);
      assert y1 + "-" + m1 + ("-" + t1) == y1 + tail1;
      assert y1 + "-" + m2 + ("-" + t2) == y1 + tail2;
    } else {
      LexLessExtends(y1 + "-" + m1 + "-", t1, t2, "", "");
      assert y1 + "-" + m1 + "-" + t1 + "" == y1 + tail1;
      assert y1 + "-" + m1 + "-" + t2 + "" == y1 + tail2;
    }
  }

  /** Of two days, the first field in which they differ is smaller for the earlier one. */
  lemma FieldsOfEarlierDay(d1: int, d2: int)
    requires d1 < d2 && FourDigitYear(d1) && FourDigitYear(d2)
    ensures || LexLess(Pad4(Year(d1)), Pad4(Year(d2)))
            || (Year(d1) == Year(d2) && LexLess(Pad2(Month(d1) + 1), Pad2(Month(d2) + 1)))
            || (Year(d1) == Year(d2) && Month(d1) == Month(d2) && LexLess(Pad2(Date(d1)), Pad2(Date(d2))))
  {
    hide Year, Month, Date, DayFromYear, Pad2, Pad4, LexLess;
    YearIsMonotone(d1, d2);
    if Year(d1) < Year(d2) {
      Pad4Ordered(Year(d1), Year(d2));
    } else {
      MonthIsMonotone(d1, d2);
      if Month(d1) < Month(d2) {
        Pad2Ordered(Month(d1) + 1, Month(d2) + 1);
      } else {
        Pad2Ordered(Date(d1), Date(d2));
      }
    }
  }

  /** Date strings with four-digit years sort as the days do. */
  lemma IsoDateOrdered(d1: int, d2: int)
    requires d1 < d2 && FourDigitYear(d1) && FourDigitYear(d2)
    ensures LexLess(IsoDate(d1), IsoDate(d2))
  {
    hide Year, Month, Date, DayFromYear, Pad2, Pad4, LexLess;
    FieldsOfEarlierDay(d1, d2);
    FieldsOrdered(Pad4(Year(d1)), Pad2(Month(d1) + 1), Pad2(Date(d1)),
                  Pad4(Year(d2)), Pad2(Month(d2) + 1), Pad2(Date(d2)));
  }

  lemma IsoDateInjective(d1: int, d2: int)
    requires FourDigitYear(d1) && FourDigitYear(d2)
    requires IsoDate(d1) == IsoDate(d2)
    ensures d1 == d2
  {
    LexLessIrreflexive(IsoDate(d1));
    if d1 < d2 {
      IsoDateOrdered(d1, d2);
    } else if d2 < d1 {
      IsoDateOrdered(d2, d1);
    }
  }

  // ----- Weeks -----

  /** The given day is the last Monday on or before day d; day 4, the fifth of January 1970, is one. */
  predicate IsMondayOf(monday: int, d: int) {
    monday % 7 == 4 && monday <= d < monday + 7
  }

  /** Days since the last Monday, where Sunday counts as the seventh day. */
  function DaysSinceMonday(d: int): (diff: int)
    ensures 0 <= diff < 7
  {
    if WeekDay(d) == 0 then 6 else WeekDay(d) - 1
  }

  /** Day arithmetic of `getWeekStartKey`. */
  function WeekStart(d: int): int {
    MakeDay(Year(d), Month(d), Date(d) - DaysSinceMonday(d))
  }

  lemma WeekStartStepsBack(d: int)
    ensures WeekStart(d) == d - DaysSinceMonday(d)
  {
    hide MakeDay;
    MakeDayShifts(d, -DaysSinceMonday(d));
  }

  /** The stepping back ends on the Monday of the day's week. */
  lemma WeekStartIsMonday(d: int)
    ensures IsMondayOf(WeekStart(d), d)
  {
    hide WeekStart, DaysSinceMonday, IsMondayOf;
    WeekStartStepsBack(d);
    MondayBack(d, DaysSinceMonday(d));
  }

  lemma MondayBack(d: int, diff: int)
    requires diff == DaysSinceMonday(d)
    ensures IsMondayOf(d - diff, d)
  {
  }

  /** `getWeekStartKey` of an event on day d. */
  function WeekStartKey(d: int): (key: string)
    requires FourDigitYear(d)
  {
    WeekStartYear(d);
    IsoDate(WeekStart(d))
  }

  lemma WeekStartYear(d: int)
    requires FourDigitYear(d)
    ensures -1 <= Year(WeekStart(d)) < 10000
  {
    WeekStartIsMonday(d);
    YearIsMonotone(WeekStart(d), d);
    YearsApart(0, Year(d));
    if Year(WeekStart(d)) < -1 {
      YearsApart(Year(WeekStart(d)) + 1, -1);
    }
  }

  /** A week that starts in the year before year 0 is the week of Monday -719533. */
  lemma FirstWeek(monday: int)
    requires monday % 7 == 4 && monday <= DayFromYear(0) < monday + 7
    ensures monday == -719533
  {
  }

  /** Two events get the same key exactly when one Monday is the last one on or before both. */
  lemma SameKeyIffSameMonday(d1: int, d2: int)
    requires FourDigitYear(d1) && FourDigitYear(d2)
    ensures WeekStartKey(d1) == WeekStartKey(d2) <==> exists monday :: IsMondayOf(monday, d1) && IsMondayOf(monday, d2)
  {
    var m1, m2 := WeekStart(d1), WeekStart(d2);
    WeekStartIsMonday(d1);
    WeekStartIsMonday(d2);
    WeekStartYear(d1);
    WeekStartYear(d2);
    if WeekStartKey(d1) == WeekStartKey(d2) {
      if FourDigitYear(m1) && FourDigitYear(m2) {
        IsoDateInjective(m1, m2);
      } else {
        KeyYearSign(m1, m2);
        StartsBeforeYearZero(d1);
        StartsBeforeYearZero(d2);
      }
      assert IsMondayOf(m1, d2);
    }
    if monday :| IsMondayOf(monday, d1) && IsMondayOf(monday, d2) {
      MondayUnique(monday, m1, d1);
      MondayUnique(monday, m2, d2);
    }
  }

  lemma MondayUnique(a: int, b: int, d: int)
    requires IsMondayOf(a, d) && IsMondayOf(b, d)
    ensures a == b
  {
  }

  lemma KeyYearSign(m1: int, m2: int)
    requires -1 <= Year(m1) < 10000 && -1 <= Year(m2) < 10000
    requires IsoDate(m1) == IsoDate(m2)
    ensures Year(m1) == -1 <==> Year(m2) == -1
  {
    assert Year(m1) == -1 ==> IsoDate(m1)[0] == '-';
    assert Year(m2) == -1 ==> IsoDate(m2)[0] == '-';
    assert FourDigitYear(m1) ==> IsoDate(m1)[0] == Digit(Year(m1) / 100 / 10);
    assert FourDigitYear(m2) ==> IsoDate(m2)[0] == Digit(Year(m2) / 100 / 10);
  }

  lemma StartsBeforeYearZero(d: int)
    requires FourDigitYear(d) && Year(WeekStart(d)) == -1
    ensures WeekStart(d) == -719533
  {
    WeekStartIsMonday(d);
    YearsApart(0, Year(d));
    FirstWeek(WeekStart(d));
  }
}
