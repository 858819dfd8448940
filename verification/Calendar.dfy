/**
  Calendar dates, their order, the two calendar computations of case preparation and the
  canonical ISO text of a date.
 */
module Calendar {
  import opened Wrappers

  const MAX_YEAR := 9999

  datatype Ymd = Ymd(year: int, month: int, day: int)

  predicate IsLeap(year: int) {
    year % 4 == 0 && (year % 100 != 0 || year % 400 == 0)
  }

  function DaysInMonth(year: int, month: int): (d: int)
    requires 1 <= month <= 12
    ensures 28 <= d <= 31
  {
    if month == 2 then (if IsLeap(year) then 29 else 28)
    else if month in {4, 6, 9, 11} then 30
    else 31
  }

  predicate IsDate(d: Ymd) {
    1 <= d.year <= MAX_YEAR && 1 <= d.month <= 12 && 1 <= d.day <= DaysInMonth(d.year, d.month)
  }

  type Date = d: Ymd | IsDate(d) witness Ymd(1, 1, 1)

  // ----- order: (year, month, day) compared left to right

  predicate Before(a: Ymd, b: Ymd) {
    a.year < b.year || (a.year == b.year && (a.month < b.month || (a.month == b.month && a.day < b.day)))
  }

  predicate NotAfter(a: Ymd, b: Ymd) {
    !Before(b, a)
  }

  function Later(a: Date, b: Date): Date {
    if Before(a, b) then b else a
  }

  /** An inclusive interval with optional ends contains a day. */
  predicate Inside(from: Option<Date>, to: Option<Date>, day: Date) {
    (from.Some? ==> NotAfter(from.value, day)) && (to.Some? ==> NotAfter(day, to.value))
  }

  // ----- `_add_calendar_months`: the day is clamped to the target month

  function MonthIndex(d: Ymd): int {
    d.year * 12 + d.month - 1
  }

  function AddCalendarMonths(d: Date, months: int): (r: Option<Date>)
  {
    var monthIndex := d.month - 1 + months;
    var year := d.year + monthIndex / 12;
    var month := monthIndex % 12 + 1;
    if !(1 <= year <= MAX_YEAR) then None
    else
      var last := DaysInMonth(year, month);
      Some(Ymd(year, month, if d.day < last then d.day else last))
  }

  /** The result lies exactly `months` months ahead and keeps the day unless the month is too short. */
  lemma AddCalendarMonthsMeaning(d: Date, months: int)
    ensures AddCalendarMonths(d, months).Some? <==> 12 <= MonthIndex(d) + months < (MAX_YEAR + 1) * 12
    ensures AddCalendarMonths(d, months).Some? ==>
              var r := AddCalendarMonths(d, months).value;
              && MonthIndex(r) == MonthIndex(d) + months
              && r.day <= d.day
              && (r.day < d.day ==> r.day == DaysInMonth(r.year, r.month))
  {}

  /** Later inputs never give earlier deadlines. */
  lemma AddCalendarMonthsMonotone(a: Date, b: Date, months: int)
    requires NotAfter(a, b)
    requires AddCalendarMonths(a, months).Some? && AddCalendarMonths(b, months).Some?
    ensures NotAfter(AddCalendarMonths(a, months).value, AddCalendarMonths(b, months).value)
  {
    AddCalendarMonthsMeaning(a, months);
    AddCalendarMonthsMeaning(b, months);
    if MonthIndex(a) == MonthIndex(b) {
      assert a.year == b.year && a.month == b.month;
    } else {
      assert MonthIndex(a) < MonthIndex(b);
    }
  }

  /** A positive number of months is strictly later, whatever the clamping does. */
  lemma AddCalendarMonthsAdvances(d: Date, months: nat)
    requires months > 0
    requires AddCalendarMonths(d, months).Some?
    ensures Before(d, AddCalendarMonths(d, months).value)
  {
    AddCalendarMonthsMeaning(d, months);
  }

  // ----- `_completed_years`

  function CompletedYears(birth: Date, on: Date): int {
    var years := on.year - birth.year;
    if on.month < birth.month || (on.month == birth.month && on.day < birth.day) then years - 1 else years
  }

  /** At least n years are completed exactly when the n-th anniversary is not after the day. */
  lemma CompletedYearsMeaning(birth: Date, on: Date, n: int)
    ensures CompletedYears(birth, on) >= n <==> NotAfter(Ymd(birth.year + n, birth.month, birth.day), on)
  {}

  // ----- ISO text: date.fromisoformat followed by the check decoded.isoformat() == text

  function DigitChar(n: int): char
    requires 0 <= n <= 9
  {
    '0' + n as char
  }

  function IsoText(d: Date): (t: string)
    ensures |t| == 10
  {
    [DigitChar(d.year / 1000), DigitChar(d.year / 100 % 10), DigitChar(d.year / 10 % 10), DigitChar(d.year % 10), '-',
     DigitChar(d.month / 10), DigitChar(d.month % 10), '-',
     DigitChar(d.day / 10), DigitChar(d.day % 10)]
  }

  predicate IsDigit(c: char) {
    '0' <= c <= '9'
  }

  function DigitValue(c: char): int
    requires IsDigit(c)
  {
    c as int - '0' as int
  }

  function ReadIsoText(t: string): Option<Date> {
    if |t| == 10 && t[4] == '-' && t[7] == '-' && (forall i | i in {0, 1, 2, 3, 5, 6, 8, 9} :: IsDigit(t[i])) then
      var d := Ymd(
        DigitValue(t[0]) * 1000 + DigitValue(t[1]) * 100 + DigitValue(t[2]) * 10 + DigitValue(t[3]),
        DigitValue(t[5]) * 10 + DigitValue(t[6]),
        DigitValue(t[8]) * 10 + DigitValue(t[9]));
      if IsDate(d) then Some(d) else None
    else None
  }

  lemma DigitsOfNumber(a: int, b: int, c: int, d: int)
    requires 0 <= a <= 9 && 0 <= b <= 9 && 0 <= c <= 9 && 0 <= d <= 9
    ensures var n := a * 1000 + b * 100 + c * 10 + d;
            n / 1000 == a && n / 100 % 10 == b && n / 10 % 10 == c && n % 10 == d
  {
    var n := a * 1000 + b * 100 + c * 10 + d;
    assert n / 10 == a * 100 + b * 10 + c;
    assert n / 100 == a * 10 + b;
  }

  lemma DigitCharOfValue(c: char)
    requires IsDigit(c)
    ensures 0 <= DigitValue(c) <= 9 && DigitChar(DigitValue(c)) == c
  {}

  lemma DigitValueOfChar(n: int)
    requires 0 <= n <= 9
    ensures IsDigit(DigitChar(n)) && DigitValue(DigitChar(n)) == n
  {}

  lemma LastDigit(n: int)
    ensures n / 10 * 10 + n % 10 == n && 0 <= n % 10 <= 9
  {}

  lemma DigitsDropped(n: int)
    requires 0 <= n <= 9999
    ensures n / 10 / 10 == n / 100 && n / 100 / 10 == n / 1000 && 0 <= n / 1000 <= 9
  {}

  lemma NumberOfDigits(n: int)
    requires 0 <= n <= 9999
    ensures n / 1000 * 1000 + n / 100 % 10 * 100 + n / 10 % 10 * 10 + n % 10 == n
    ensures n < 100 ==> n / 10 * 10 + n % 10 == n
    ensures 0 <= n / 1000 <= 9 && (n < 100 ==> 0 <= n / 10 <= 9)
  {
    DigitsDropped(n);
    LastDigit(n);
    LastDigit(n / 10);
    LastDigit(n / 100);
  }

  lemma ReadBackIsoText(d: Date)
    ensures ReadIsoText(IsoText(d)) == Some(d)
  {
    var t := IsoText(d);
    NumberOfDigits(d.year);
    NumberOfDigits(d.month);
    NumberOfDigits(d.day);
    DigitValueOfChar(d.year / 1000);
    DigitValueOfChar(d.year / 100 % 10);
    DigitValueOfChar(d.year / 10 % 10);
    DigitValueOfChar(d.year % 10);
    DigitValueOfChar(d.month / 10);
    DigitValueOfChar(d.month % 10);
    DigitValueOfChar(d.day / 10);
    DigitValueOfChar(d.day % 10);
    assert forall i | i in {0, 1, 2, 3, 5, 6, 8, 9} :: IsDigit(t[i]);
  }

  lemma IsoTextOfRead(t: string)
    requires ReadIsoText(t).Some?
    ensures IsoText(ReadIsoText(t).value) == t
  {
    assert IsDigit(t[0]) && IsDigit(t[1]) && IsDigit(t[2]) && IsDigit(t[3])
        && IsDigit(t[5]) && IsDigit(t[6]) && IsDigit(t[8]) && IsDigit(t[9]);
    forall i | i in {0, 1, 2, 3, 5, 6, 8, 9}
      ensures 0 <= DigitValue(t[i]) <= 9 && DigitChar(DigitValue(t[i])) == t[i]
    {
      DigitCharOfValue(t[i]);
    }
    DigitsOfNumber(DigitValue(t[0]), DigitValue(t[1]), DigitValue(t[2]), DigitValue(t[3]));
    DigitsOfNumber(0, 0, DigitValue(t[5]), DigitValue(t[6]));
    DigitsOfNumber(0, 0, DigitValue(t[8]), DigitValue(t[9]));
  }
}
