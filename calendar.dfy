/**
 * Calendar dates as the pipeline sees them: parsed from `%Y-%m-%d` text into
 * pandas timestamps at midnight, counted as days since 1970-01-01, and
 * bucketed into weeks (Monday to Sunday), months and quarters.
 */
module Calendar {
  import opened Wrappers
  import opened Text

  datatype Date = Date(year: int, month: int, day: int)

  predicate IsLeapYear(y: int) {
    y % 4 == 0 && (y % 100 != 0 || y % 400 == 0)
  }

  function DaysInMonth(y: int, m: int): (n: int)
    requires 1 <= m <= 12
    ensures 28 <= n <= 31
  {
    if m == 2 then (if IsLeapYear(y) then 29 else 28)
    else if m == 4 || m == 6 || m == 9 || m == 11 then 30
    else 31
  }

  /** A day that exists in the proleptic Gregorian calendar. */
  predicate IsValidDate(d: Date) {
    1 <= d.month <= 12 && 1 <= d.day <= DaysInMonth(d.year, d.month)
  }

  /** What a parsed timestamp column holds: days that exist. */
  type ValidDate = d: Date | IsValidDate(d) witness Date(1970, 1, 1)

  /** `a` comes strictly before `b` in (year, month, day) order. */
  predicate Before(a: Date, b: Date) {
    a.year < b.year || (a.year == b.year && (a.month < b.month || (a.month == b.month && a.day < b.day)))
  }

  /** The first and last midnights a pandas nanosecond timestamp can hold. */
  const FirstTimestampDate := Date(1677, 9, 22)
  const LastTimestampDate := Date(2262, 4, 11)

  predicate InTimestampRange(d: Date) {
    !Before(d, FirstTimestampDate) && !Before(LastTimestampDate, d)
  }

  /**
   * The date strings the model reads for `pd.to_datetime(s, format='%Y-%m-%d')`:
   * exactly four year digits, a '-', two month digits, a '-' and two day
   * digits, naming a day that exists and that a timestamp can hold. The model
   * rejects every other string; pandas is more lenient.
   */
  function ParseIsoDate(s: string): (r: Result<ValidDate>)
    ensures r.Success? ==> InTimestampRange(r.value)
    ensures r.Failure? ==> r.error == DateParse
  {
    if |s| == 10 && s[4] == '-' && s[7] == '-' && AllDigits(s[..4]) && AllDigits(s[5..7]) && AllDigits(s[8..]) then
      var d := Date(DigitsValue(s[..4]), DigitsValue(s[5..7]), DigitsValue(s[8..]));
      if IsValidDate(d) && InTimestampRange(d) then Success(d) else Failure(DateParse)
    else Failure(DateParse)
  }

  /** The `%Y-%m-%d` text of a date. */
  function FormatIsoDate(d: Date): string
    requires 0 <= d.year && 0 <= d.month && 0 <= d.day
  {
    Pad(d.year, 4) + "-" + Pad(d.month, 2) + "-" + Pad(d.day, 2)
  }

  lemma FormatIsoDateShape(d: Date)
    requires 0 <= d.year && 0 <= d.month && 0 <= d.day
    ensures var s := FormatIsoDate(d);
      && |s| == 10 && s[4] == '-' && s[7] == '-'
      && s[..4] == Pad(d.year, 4) && s[5..7] == Pad(d.month, 2) && s[8..] == Pad(d.day, 2)
  {
  }

  /** Every date a timestamp can hold is read back from its own text. */
  lemma ParseFormatIsoDate(d: Date)
    requires IsValidDate(d) && InTimestampRange(d)
    ensures ParseIsoDate(FormatIsoDate(d)) == Success(d)
  {
    FormatIsoDateShape(d);
    assert Pow10(4) == 10000 && Pow10(2) == 100;
    PadValue(d.year, 4);
    PadValue(d.month, 2);
    PadValue(d.day, 2);
  }

  /** Parsing accepts only the canonical text of the date it returns. */
  lemma FormatParseIsoDate(s: string)
    requires ParseIsoDate(s).Success?
    ensures FormatIsoDate(ParseIsoDate(s).value) == s
  {
    var yy, mm, dd := s[..4], s[5..7], s[8..];
    PadOfDigits(yy);
    PadOfDigits(mm);
    PadOfDigits(dd);
    var d := ParseIsoDate(s).value;
    assert d == Date(DigitsValue(yy), DigitsValue(mm), DigitsValue(dd));
    assert FormatIsoDate(d) == yy + "-" + mm + "-" + dd;
    assert s == yy + "-" + mm + "-" + dd;
  }

  // ---------------------------------------------------------------------------
  // Day numbers

  /** Days from 0000-01-01 to January 1st of year `y` (`y` >= 0). */
  function DaysBeforeYear(y: int): int {
    365 * y + (y + 3) / 4 - (y + 99) / 100 + (y + 399) / 400
  }

  /** Days from January 1st to the first of month `m` of year `y`. */
  function DaysBeforeMonth(y: int, m: int): int
    requires 1 <= m <= 12
  {
    [0, 31, 59, 90, 120, 151, 181, 212, 243, 273, 304, 334][m - 1]
    + (if m > 2 && IsLeapYear(y) then 1 else 0)
  }

  /** DaysBeforeYear(1970): 1970-01-01 is day 0, like a pandas timestamp. */
  const EpochDays := 719528

  /** Days since 1970-01-01 (negative before it). */
  function DayNumber(d: Date): int
    requires IsValidDate(d)
  {
    DaysBeforeYear(d.year) + DaysBeforeMonth(d.year, d.month) + d.day - 1 - EpochDays
  }

  /** The month of `d` counted as year * 12 + (month - 1): pandas' monthly period. */
  function MonthIndex(d: Date): int {
    12 * d.year + d.month - 1
  }

  /** pandas' quarterly period (quarters ending in March, June, September, December). */
  function QuarterIndex(d: Date): int {
    MonthIndex(d) / 3
  }

  /** The day number of the first day of month index `k`. */
  function MonthStart(k: int): int {
    DaysBeforeYear(k / 12) + DaysBeforeMonth(k / 12, k % 12 + 1) - EpochDays
  }

  function MonthLength(k: int): (n: int)
    ensures 28 <= n <= 31
  {
    DaysInMonth(k / 12, k % 12 + 1)
  }

  lemma EpochIsDayZero()
    ensures DayNumber(Date(1970, 1, 1)) == 0
  {
  }

  lemma DayNumberInMonth(d: Date)
    requires IsValidDate(d)
    ensures MonthIndex(d) / 12 == d.year && MonthIndex(d) % 12 == d.month - 1
    ensures DayNumber(d) == MonthStart(MonthIndex(d)) + d.day - 1
    ensures MonthStart(MonthIndex(d)) <= DayNumber(d) < MonthStart(MonthIndex(d)) + MonthLength(MonthIndex(d))
  {
  }

  lemma LeapStep(y: int)
    ensures (y + 4) / 4 - (y + 3) / 4 == (if y % 4 == 0 then 1 else 0)
    ensures (y + 100) / 100 - (y + 99) / 100 == (if y % 100 == 0 then 1 else 0)
    ensures (y + 400) / 400 - (y + 399) / 400 == (if y % 400 == 0 then 1 else 0)
  {
    DivStep(y, 4);
    DivStep(y, 100);
    DivStep(y, 400);
  }

  /** Moving `y` up by one crosses a multiple of `m` exactly when `y` is one. */
  lemma DivStep(y: int, m: int)
    requires m > 0
    ensures (y + m) / m - (y + m - 1) / m == (if y % m == 0 then 1 else 0)
  {
    var q, r := y / m, y % m;
    assert y == m * q + r && 0 <= r < m;
    assert y + m == m * (q + 1) + r;
    if r == 0 {
      assert y + m - 1 == m * q + (m - 1);
      DivOf(y + m, m, q + 1, 0);
      DivOf(y + m - 1, m, q, m - 1);
    } else {
      assert y + m - 1 == m * (q + 1) + (r - 1);
      DivOf(y + m, m, q + 1, r);
      DivOf(y + m - 1, m, q + 1, r - 1);
    }
  }

  lemma YearLength(y: int)
    ensures DaysBeforeYear(y + 1) == DaysBeforeYear(y) + (if IsLeapYear(y) then 366 else 365)
  {
    LeapStep(y);
    LeapDivisibility(y);
    assert DaysBeforeYear(y) == 365 * y + (y + 3) / 4 - (y + 99) / 100 + (y + 399) / 400;
    assert DaysBeforeYear(y + 1) == 365 * y + 365 + (y + 4) / 4 - (y + 100) / 100 + (y + 400) / 400;
  }

  /** Every multiple of 400 is one of 100, and every multiple of 100 is one of 4. */
  lemma LeapDivisibility(y: int)
    ensures y % 100 == 0 ==> y % 4 == 0
    ensures y % 400 == 0 ==> y % 100 == 0
  {
    if y % 100 == 0 {
      assert y == 4 * (25 * (y / 100)) + 0;
      DivOf(y, 4, 25 * (y / 100), 0);
    }
    if y % 400 == 0 {
      assert y == 100 * (4 * (y / 400)) + 0;
      DivOf(y, 100, 4 * (y / 400), 0);
    }
  }

  lemma MonthStep(k: int)
    ensures MonthStart(k + 1) == MonthStart(k) + MonthLength(k)
  {
    if k % 12 == 11 {
      assert (k + 1) / 12 == k / 12 + 1 && (k + 1) % 12 == 0;
      YearLength(k / 12);
    } else {
      assert (k + 1) / 12 == k / 12 && (k + 1) % 12 == k % 12 + 1;
    }
  }

  /** Months follow each other without gaps: month `i` ends before month `j` starts. */
  lemma {:induction false} MonthStartIncreasing(i: int, j: int)
    requires i < j
    ensures MonthStart(i) + MonthLength(i) <= MonthStart(j)
  {
    MonthStep(i);
    MonthStartNondecreasing(i + 1, j);
  }

  /** Month starts never decrease with the month index. */
  lemma {:induction false} MonthStartNondecreasing(i: int, j: int)
    requires i <= j
    ensures MonthStart(i) <= MonthStart(j)
    decreases j - i
  {
    if i < j {
      MonthStartNondecreasing(i, j - 1);
      MonthStep(j - 1);
      var before, length := MonthStart(j - 1), MonthLength(j - 1);
      assert MonthStart(j) == before + length && 0 <= length;
    }
  }

  /** A later month holds only later days. */
  lemma MonthIndexOrdersDays(a: Date, b: Date)
    requires IsValidDate(a) && IsValidDate(b)
    requires MonthIndex(a) < MonthIndex(b)
    ensures DayNumber(a) < DayNumber(b)
  {
    DayNumberInMonth(a);
    DayNumberInMonth(b);
    MonthStartIncreasing(MonthIndex(a), MonthIndex(b));
  }

  /** Day numbers follow calendar order: the earlier date has the smaller day number. */
  lemma DayNumberOrder(a: Date, b: Date)
    requires IsValidDate(a) && IsValidDate(b)
    ensures Before(a, b) <==> DayNumber(a) < DayNumber(b)
    ensures a == b <==> DayNumber(a) == DayNumber(b)
  {
    if MonthIndex(a) < MonthIndex(b) {
      MonthIndexOrdersDays(a, b);
    } else if MonthIndex(b) < MonthIndex(a) {
      MonthIndexOrdersDays(b, a);
    } else {
      DayNumberInMonth(a);
      DayNumberInMonth(b);
    }
  }

  /** Taking the month (or quarter) of a timestamp never reverses the order of two timestamps. */
  lemma MonthIndexMonotone(a: Date, b: Date)
    requires IsValidDate(a) && IsValidDate(b)
    requires DayNumber(a) <= DayNumber(b)
    ensures MonthIndex(a) <= MonthIndex(b)
    ensures QuarterIndex(a) <= QuarterIndex(b)
  {
    if MonthIndex(b) < MonthIndex(a) {
      MonthIndexOrdersDays(b, a);
    }
  }

  // ---------------------------------------------------------------------------
  // Period starts used by the RFM table

  /** Day of the week, Monday = 0 ... Sunday = 6; 1970-01-01 was a Thursday. */
  function Weekday(n: int): int {
    (n + 3) % 7
  }

  /** The Monday that starts the week holding day `n` (pandas 'W', weeks ending on Sunday). */
  function WeekStart(n: int): (w: int)
    ensures w <= n < w + 7
    ensures Weekday(w) == 0
  {
    n - Weekday(n)
  }

  /** Two days share a week exactly when they share its Monday. */
  lemma SameWeek(a: int, b: int)
    ensures WeekStart(a) == WeekStart(b) <==> (WeekStart(a) <= b < WeekStart(a) + 7)
  {
    if WeekStart(a) <= b < WeekStart(a) + 7 {
      var w := WeekStart(a);
      assert (w + 3) % 7 == 0;
      assert (b + 3) % 7 == b - w;
    }
  }

  /** The day number of the first of the month holding `d`. */
  function MonthStartDay(d: Date): (m: int)
    requires IsValidDate(d)
    ensures m <= DayNumber(d) <= m + 30
    ensures m == DayNumber(d) - d.day + 1
  {
    DayNumberInMonth(d);
    MonthStart(MonthIndex(d))
  }
}
