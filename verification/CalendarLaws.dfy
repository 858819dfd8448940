/** What the order of dates, their text and the order of texts mean, in numbers and characters. */
module CalendarLaws {
  import opened Wrappers
  import opened Calendar
  import opened Ordering

  /** A number that grows with the date. */
  function Rank(d: Ymd): int {
    d.year * 372 + d.month * 31 + d.day
  }

  lemma BeforeMeans(a: Date, b: Date)
    ensures Before(a, b) <==> Rank(a) < Rank(b)
    ensures NotAfter(a, b) <==> Rank(a) <= Rank(b)
  {}

  /** An interval contains both of its ends, and every day where an end is open. */
  lemma InsideMeans(from: Option<Date>, to: Option<Date>, day: Date)
    ensures Inside(from, to, day)
            <==> (from == None || Rank(from.value) <= Rank(day)) && (to == None || Rank(day) <= Rank(to.value))
  {
    if from.Some? { BeforeMeans(day, from.value); }
    if to.Some? { BeforeMeans(to.value, day); }
  }

  /** Every month's last day; 29 February comes every fourth year except in three centuries of four. */
  lemma LastDays(year: int, month: int)
    requires 1 <= month <= 12
    ensures month in {1, 3, 5, 7, 8, 10, 12} ==> DaysInMonth(year, month) == 31
    ensures month in {4, 6, 9, 11} ==> DaysInMonth(year, month) == 30
    ensures month == 2 ==>
              DaysInMonth(year, month) == if year % 4 == 0 && (year % 100 == 0 ==> year % 400 == 0) then 29 else 28
  {}

  function Digit(c: char): int {
    c as int - 48
  }

  predicate Spells(digits: string, n: int) {
    && (forall c | c in digits :: 0 <= Digit(c) <= 9)
    && n == Number(digits)
  }

  function Number(digits: string): int {
    if digits == [] then 0 else Number(digits[..|digits| - 1]) * 10 + Digit(digits[|digits| - 1])
  }

  lemma TwoDigits(a: char, b: char)
    ensures Number([a, b]) == Digit(a) * 10 + Digit(b)
  {
    assert [a, b][..1] == [a] && [a][..0] == [];
    assert Number([a]) == Digit(a);
  }

  lemma FourDigits(a: char, b: char, c: char, d: char)
    ensures Number([a, b, c, d]) == Digit(a) * 1000 + Digit(b) * 100 + Digit(c) * 10 + Digit(d)
  {
    assert [a, b, c, d][..3] == [a, b, c] && [a, b, c][..2] == [a, b];
    TwoDigits(a, b);
  }

  /** Four digits of the year, two of the month and two of the day, between dashes. */
  lemma IsoTextMeans(d: Date)
    ensures var t := IsoText(d);
            && |t| == 10 && t[4] == '-' && t[7] == '-'
            && Spells(t[..4], d.year) && Spells(t[5..7], d.month) && Spells(t[8..], d.day)
  {
    var t := IsoText(d);
    assert t[..4] == [t[0], t[1], t[2], t[3]] && t[5..7] == [t[5], t[6]] && t[8..] == [t[8], t[9]];
    FourDigits(t[0], t[1], t[2], t[3]);
    TwoDigits(t[5], t[6]);
    TwoDigits(t[8], t[9]);
    NumberOfDigits(d.year);
    NumberOfDigits(d.month);
    NumberOfDigits(d.day);
  }

  /** A text is not after another when it begins it, or has the lower character where they first differ. */
  lemma {:induction false} TextLeMeans(a: string, b: string)
    ensures TextLe(a, b)
            <==> || a <= b
                 || exists i | 0 <= i < |a| && i < |b| :: a[i] < b[i] && a[..i] == b[..i]
  {
    if a != [] && b != [] {
      var x, y := a[1..], b[1..];
      if a[0] == b[0] {
        TextLeMeans(x, y);
        if i :| 0 <= i < |x| && i < |y| && x[i] < y[i] && x[..i] == y[..i] {
          assert a[i + 1] < b[i + 1] && a[..i + 1] == [a[0]] + x[..i] && b[..i + 1] == [b[0]] + y[..i];
        }
        if i :| 0 <= i < |a| && i < |b| && a[i] < b[i] && a[..i] == b[..i] {
          assert i > 0;
          assert x[i - 1] < y[i - 1] && x[..i - 1] == a[..i][1..] && y[..i - 1] == b[..i][1..];
        }
        assert a == [a[0]] + x && b == [b[0]] + y;
      } else {
        assert a[..0] == b[..0];
        if i :| 0 < i < |a| && i < |b| && a[..i] == b[..i] { assert a[..i][0] == b[..i][0]; }
      }
    }
  }
}
