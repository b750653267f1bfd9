/** Reading a date string, the way `new Date('YYYY-MM-DD')` does: the inverse of writing one. */
module DateStrings {
  import opened Calendar
  import opened Options

  predicate IsDigit(c: char) {
    '0' <= c <= '9'
  }

  function DigitValue(c: char): (n: int)
    requires IsDigit(c)
    ensures 0 <= n < 10 && Digit(n) == c
  {
    c as int - '0' as int
  }

  function TwoDigits(a: char, b: char): (n: int)
    requires IsDigit(a) && IsDigit(b)
    ensures 0 <= n < 100 && Pad2(n) == [a, b]
  {
    10 * DigitValue(a) + DigitValue(b)
  }

  /** Four digits, a dash, two digits, a dash, two digits. */
  predicate LooksLikeDate(s: string) {
    && |s| == 10
    && s[4] == '-' && s[7] == '-'
    && IsDigit(s[0]) && IsDigit(s[1]) && IsDigit(s[2]) && IsDigit(s[3])
    && IsDigit(s[5]) && IsDigit(s[6]) && IsDigit(s[8]) && IsDigit(s[9])
  }

  predicate IsCalendarDate(y: int, month: int, date: int) {
    1 <= month <= 12 && 1 <= date <= DaysBeforeMonth(month, IsLeap(y)) - DaysBeforeMonth(month - 1, IsLeap(y))
  }

  /** The day that a date string names, if the calendar has it. */
  function ParseDate(s: string): (day: Option<int>) {
    if LooksLikeDate(s) then
      var y := 100 * TwoDigits(s[0], s[1]) + TwoDigits(s[2], s[3]);
      var month, date := TwoDigits(s[5], s[6]), TwoDigits(s[8], s[9]);
      if IsCalendarDate(y, month, date) then Some(MakeDay(y, month - 1, date)) else None
    else None
  }

  /** A day with a four-digit year, written. */
  function DateOf(d: int): (s: string)
    requires FourDigitYear(d)
  {
    IsoDate(d)
  }

  lemma DaysBetween(a: int, b: int, d: int)
    requires FourDigitYear(a) && FourDigitYear(b) && a <= d <= b
    ensures FourDigitYear(d)
  {
    hide Year;
    YearIsMonotone(a, d);
    YearIsMonotone(d, b);
  }

  lemma TwoDigitsOfPad2(n: int)
    requires 0 <= n < 100
    ensures IsDigit(Pad2(n)[0]) && IsDigit(Pad2(n)[1]) && TwoDigits(Pad2(n)[0], Pad2(n)[1]) == n
  {
  }

  lemma FieldsAreCalendarDate(d: int)
    ensures IsCalendarDate(Year(d), Month(d) + 1, Date(d)) && MakeDay(Year(d), Month(d), Date(d)) == d
  {
    MakeDayShifts(d, 0);
    hide Year, Month, DayFromYear;
  }

  lemma Assemble(a: string, b: string, c: string, d: string)
    requires |a| == 2 && |b| == 2 && |c| == 2 && |d| == 2
    ensures (a + b) + ("-" + c + "-" + d) == [a[0], a[1], b[0], b[1], '-', c[0], c[1], '-', d[0], d[1]]
  {
    assert a == [a[0], a[1]] && b == [b[0], b[1]] && c == [c[0], c[1]] && d == [d[0], d[1]];
  }

  lemma ParseCharacters(a: string, b: string, c: string, d: string)
    requires |a| == 2 && |b| == 2 && |c| == 2 && |d| == 2
    requires IsDigit(a[0]) && IsDigit(a[1]) && IsDigit(b[0]) && IsDigit(b[1])
    requires IsDigit(c[0]) && IsDigit(c[1]) && IsDigit(d[0]) && IsDigit(d[1])
    ensures var y := 100 * TwoDigits(a[0], a[1]) + TwoDigits(b[0], b[1]);
            var month, date := TwoDigits(c[0], c[1]), TwoDigits(d[0], d[1]);
            ParseDate([a[0], a[1], b[0], b[1], '-', c[0], c[1], '-', d[0], d[1]])
            == if IsCalendarDate(y, month, date) then Some(MakeDay(y, month - 1, date)) else None
  {
    hide MakeDay, DaysBeforeMonth, IsDigit, TwoDigits, IsCalendarDate;
  }

  /** Reading a date string put together from its fields. */
  lemma ParseOfFields(y: int, month: int, date: int)
    requires 0 <= y < 10000 && 0 <= month < 100 && 0 <= date < 100 && IsCalendarDate(y, month, date)
    ensures ParseDate(Pad4(y) + ("-" + Pad2(month) + "-" + Pad2(date))) == Some(MakeDay(y, month - 1, date))
  {
    hide MakeDay, DaysBeforeMonth, IsDigit, TwoDigits, Pad2, IsCalendarDate, ParseDate;
    TwoDigitsOfPad2(y / 100);
    TwoDigitsOfPad2(y % 100);
    TwoDigitsOfPad2(month);
    TwoDigitsOfPad2(date);
    Assemble(Pad2(y / 100), Pad2(y % 100), Pad2(month), Pad2(date));
    ParseCharacters(Pad2(y / 100), Pad2(y % 100), Pad2(month), Pad2(date));
  }

  /** A date string that was written is read as the day it was written for. */
  lemma ParseOfDate(d: int)
    requires FourDigitYear(d)
    ensures ParseDate(DateOf(d)) == Some(d)
  {
    hide Year, Month, Date, DayFromYear, MakeDay, DaysBeforeMonth, ParseDate, Pad2, Pad4, IsCalendarDate;
    FieldsAreCalendarDate(d);
    ParseOfFields(Year(d), Month(d) + 1, Date(d));
  }

  /** A date string that can be read is the one that its day is written as. */
  lemma DateOfParse(s: string)
    requires ParseDate(s).Some?
    ensures FourDigitYear(ParseDate(s).value) && DateOf(ParseDate(s).value) == s
  {
    hide Year, Month, Date, DayFromYear, MakeDay, DaysBeforeMonth;
    var y := 100 * TwoDigits(s[0], s[1]) + TwoDigits(s[2], s[3]);
    var month, date := TwoDigits(s[5], s[6]), TwoDigits(s[8], s[9]);
    FieldsOfMakeDay(y, month - 1, date);
    hide TwoDigits, Pad2, IsDigit;
    assert y / 100 == TwoDigits(s[0], s[1]) && y % 100 == TwoDigits(s[2], s[3]);
    assert s == [s[0], s[1]] + [s[2], s[3]] + "-" + [s[5], s[6]] + "-" + [s[8], s[9]];
  }

  lemma DatesOrdered(a: int, b: int)
    requires FourDigitYear(a) && FourDigitYear(b) && a < b
    ensures LexLess(DateOf(a), DateOf(b))
  {
    hide Year, FourDigitYear;
    IsoDateOrdered(a, b);
  }
}
