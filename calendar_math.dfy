/** Calendar arithmetic on day triples: Gregorian month lengths, stepping by one month,
    the normalisation that JavaScript's `new Date(year, monthIndex, day)` performs, the
    instant order on days and the decimal text of a year. */
module CalendarMath {

  /** A calendar day as `getFullYear`, `getMonth` (0 = January) and `getDate` report it.
      Time of day is not part of the model. */
  datatype Date = Date(year: int, month: int, day: int)

  /** A month of a year, the granularity of the navigation bounds. */
  datatype YearMonth = YearMonth(year: int, month: int)

  /** Gregorian rule: divisible by 4, and not by 100 unless also by 400. */
  predicate IsLeapYear(y: int)
  {
    y % 4 == 0 && (y % 100 != 0 || y % 400 == 0)
  }

  function DaysInMonth(y: int, m: int): (r: int)
    requires 0 <= m < 12
    ensures 28 <= r <= 31
    ensures r == 29 <==> m == 1 && IsLeapYear(y)
    ensures r == 28 <==> m == 1 && !IsLeapYear(y)
    ensures r == 30 <==> m == 3 || m == 5 || m == 8 || m == 10
  {
    if m == 1 then (if IsLeapYear(y) then 29 else 28)
    else if m == 3 || m == 5 || m == 8 || m == 10 then 30
    else 31
  }

  predicate ValidDate(d: Date)
  {
    0 <= d.month < 12 && 1 <= d.day <= DaysInMonth(d.year, d.month)
  }

  /** Months counted from year 0, so that one month is one unit. */
  function MonthNumber(y: int, m: int): int
  {
    y * 12 + m
  }

  /** The month before (y, m); January steps back to December of the previous year. */
  function PrevMonth(y: int, m: int): (r: YearMonth)
    requires 0 <= m < 12
    ensures 0 <= r.month < 12
    ensures MonthNumber(r.year, r.month) == MonthNumber(y, m) - 1
  {
    if m == 0 then YearMonth(y - 1, 11) else YearMonth(y, m - 1)
  }

  /** The month after (y, m); December steps on to January of the next year. */
  function NextMonth(y: int, m: int): (r: YearMonth)
    requires 0 <= m < 12
    ensures 0 <= r.month < 12
    ensures MonthNumber(r.year, r.month) == MonthNumber(y, m) + 1
  {
    if m == 11 then YearMonth(y + 1, 0) else YearMonth(y, m + 1)
  }

  lemma MonthStepsInverse(y: int, m: int)
    requires 0 <= m < 12
    ensures PrevMonth(y, m).month < 12 && NextMonth(PrevMonth(y, m).year, PrevMonth(y, m).month) == YearMonth(y, m)
    ensures NextMonth(y, m).month < 12 && PrevMonth(NextMonth(y, m).year, NextMonth(y, m).month) == YearMonth(y, m)
  {
  }

  /** Two months with valid month indices are the same exactly when their month numbers are. */
  lemma MonthNumberInjective(y1: int, m1: int, y2: int, m2: int)
    requires 0 <= m1 < 12 && 0 <= m2 < 12
    ensures MonthNumber(y1, m1) == MonthNumber(y2, m2) <==> y1 == y2 && m1 == m2
  {
  }

  /** The year `new Date(y, m, d)` works in: a year argument of 0..99 names 1900..1999
      (MakeFullYear, section 21.4.2.1 of ECMA-262); any other year is kept. */
  function FullYear(y: int): (r: int)
    ensures 0 <= y <= 99 ==> r == 1900 + y
    ensures !(0 <= y <= 99) ==> r == y
    ensures r < 0 || r >= 100
  {
    if 0 <= y <= 99 then 1900 + y else y
  }

  /** What `new Date(y, m, d)` denotes for a day argument of 0..28: the year is read as
      `FullYear(y)`, a month index outside 0..11 is then carried into that year, and day 0
      names the last day of the month before. */
  function MakeDate(y: int, m: int, d: int): (r: Date)
    requires 0 <= d <= 28
    ensures ValidDate(r)
    ensures 1 <= d ==> MonthNumber(r.year, r.month) == MonthNumber(FullYear(y), m) && r.day == d
    ensures d == 0 ==> MonthNumber(r.year, r.month) == MonthNumber(FullYear(y), m) - 1
    ensures d == 0 ==> r.day == DaysInMonth(r.year, r.month)
  {
    var yr := FullYear(y);
    var ny := yr + m / 12;
    var nm := m % 12;
    assert MonthNumber(ny, nm) == MonthNumber(yr, m);
    if d == 0 then
      var p := PrevMonth(ny, nm);
      Date(p.year, p.month, DaysInMonth(p.year, p.month))
    else
      Date(ny, nm, d)
  }

  /** The order of the instants at which the two days begin: year, then month, then day. */
  predicate Before(a: Date, b: Date)
  {
    a.year < b.year || (a.year == b.year && (a.month < b.month || (a.month == b.month && a.day < b.day)))
  }

  lemma BeforeIsStrictTotalOrder(a: Date, b: Date, c: Date)
    ensures !Before(a, a)
    ensures Before(a, b) && Before(b, c) ==> Before(a, c)
    ensures a == b || Before(a, b) || Before(b, a)
  {
  }

  /** The day after `d`. */
  function NextDay(d: Date): (r: Date)
    requires ValidDate(d)
    ensures ValidDate(r)
    ensures Before(d, r)
    ensures r.day == 1 <==> d.day == DaysInMonth(d.year, d.month)
  {
    if d.day < DaysInMonth(d.year, d.month) then
      Date(d.year, d.month, d.day + 1)
    else
      var n := NextMonth(d.year, d.month);
      Date(n.year, n.month, 1)
  }

  /** No valid day lies strictly between `d` and the day after it. */
  lemma NextDayIsImmediate(d: Date, x: Date)
    requires ValidDate(d) && ValidDate(x)
    ensures Before(d, x) ==> !Before(x, NextDay(d))
  {
  }

  /** A decimal digit as a character. */
  function DigitChar(k: int): (c: char)
    requires 0 <= k < 10
    ensures '0' <= c <= '9'
    ensures c as int - '0' as int == k
  {
    ('0' as int + k) as char
  }

  predicate IsDigits(s: string)
  {
    forall i :: 0 <= i < |s| ==> '0' <= s[i] <= '9'
  }

  /** The decimal numeral of `n`, without leading zeros. */
  function NatToDecimal(n: nat): (s: string)
    ensures |s| >= 1 && IsDigits(s)
    ensures |s| > 1 ==> s[0] != '0'
    decreases n
  {
    if n < 10 then [DigitChar(n)] else NatToDecimal(n / 10) + [DigitChar(n % 10)]
  }

  /** What `Number.prototype.toString()` gives for an integer: a minus sign for a
      negative value, then the decimal numeral of its magnitude. */
  function IntToDecimal(n: int): (s: string)
    ensures |s| >= 1
    ensures n < 0 <==> s[0] == '-'
    ensures n >= 0 ==> IsDigits(s)
    ensures n < 0 ==> IsDigits(s[1..]) && |s| >= 2 && (|s| > 2 ==> s[1] != '0')
    ensures n >= 0 ==> (|s| > 1 ==> s[0] != '0')
  {
    if n < 0 then "-" + NatToDecimal(-n) else NatToDecimal(n)
  }

  /** The value of a numeral read as decimal digits. */
  function DecimalValue(s: string): int
    requires IsDigits(s)
  {
    if s == [] then 0 else DecimalValue(s[..|s| - 1]) * 10 + (s[|s| - 1] as int - '0' as int)
  }

  /** Reading a numeral back as a signed decimal. */
  function SignedDecimalValue(s: string): int
    requires |s| >= 1
    requires if s[0] == '-' then IsDigits(s[1..]) else IsDigits(s)
  {
    if s[0] == '-' then -DecimalValue(s[1..]) else DecimalValue(s)
  }

  lemma {:induction false} NatToDecimalRoundTrip(n: nat)
    ensures DecimalValue(NatToDecimal(n)) == n
    decreases n
  {
    var s := NatToDecimal(n);
    if n >= 10 {
      NatToDecimalRoundTrip(n / 10);
      assert s[..|s| - 1] == NatToDecimal(n / 10);
    }
  }

  /** The year text can be read back as the year. */
  lemma IntToDecimalRoundTrip(n: int)
    ensures SignedDecimalValue(IntToDecimal(n)) == n
  {
    if n < 0 {
      NatToDecimalRoundTrip(-n);
      assert IntToDecimal(n)[1..] == NatToDecimal(-n);
    } else {
      NatToDecimalRoundTrip(n);
    }
  }
}
