/** The calendar arithmetic of the indicator: the weekday headings, where the
    first day of the month sits in the week, and the fixed fallback table of
    month lengths. */
module CalendarMath {
  import opened JsBuiltins

  /** Column headings of the month grid, Sunday first (Nepali abbreviations
      of Aaitabar ... Shanibar). */
  const DaysOfWeek: seq<string> := ["आइत", "सोम", "मंगल", "बुध", "बिहि", "शुक्र", "शनि"]

  /** The heading of the Saturday column. */
  const SaturdayHeading: string := "शनि"

  /** Only column 6 is headed Saturday. */
  lemma SaturdayColumn(c: int)
    requires 0 <= c < 7
    ensures DaysOfWeek[c] == SaturdayHeading <==> c == 6
  {
    if c != 6 {
      assert DaysOfWeek[c][|DaysOfWeek[c]| - 1] != SaturdayHeading[2] || DaysOfWeek[c][0] != SaturdayHeading[0];
    }
  }

  /** The column (0 = Sunday) of day 1 of the current month, computed from
      today's weekday `dayOfWeek` and today's day of the month `day` with
      JavaScript's truncating `%`. The year and the month are not used.
      When today's weekday is a real weekday, the result is one too, and
      day `day` of the month, placed `day - 1` cells after it, falls in
      column `dayOfWeek`. */
  function FirstDayOfWeek(year: int, month: int, dayOfWeek: int, day: int): (first: int)
    ensures -7 < first < 7
    ensures 0 <= dayOfWeek <= 6 ==> 0 <= first <= 6 && (first + (day - 1)) % 7 == dayOfWeek
  {
    WeekAlignment(dayOfWeek, day);
    Rem(dayOfWeek - Rem(day - 1, 7) + 7, 7)
  }

  /** The truncating remainder differs from the Euclidean one by 0 or 7. */
  lemma RemBy7(a: int)
    ensures Rem(a, 7) == a % 7 || Rem(a, 7) == a % 7 - 7
  {
    if a < 0 {
      var m := (-a) % 7;
      var p := (-a) / 7;
      assert -a == 7 * p + m;
      if m == 0 {
        assert a == 7 * (-p);
        ShiftByWeeks(0, -p);
      } else {
        assert a == 7 * (-p - 1) + (7 - m);
        ShiftByWeeks(7 - m, -p - 1);
      }
    }
  }

  /** The arithmetic behind `FirstDayOfWeek`: for a real weekday the result
      is a weekday, it lies `day - 1` days (Euclidean, modulo 7) before
      today, and so day `day` lands on today's weekday. */
  lemma WeekAlignment(dayOfWeek: int, day: int)
    ensures var f := Rem(dayOfWeek - Rem(day - 1, 7) + 7, 7);
      0 <= dayOfWeek <= 6 ==>
        0 <= f <= 6 && (f + (day - 1)) % 7 == dayOfWeek && f == (dayOfWeek - (day - 1)) % 7
  {
    if !(0 <= dayOfWeek <= 6) {
      return;
    }
    var e := (day - 1) % 7;
    var q := (day - 1) / 7;
    assert day - 1 == 7 * q + e;
    var back := Rem(day - 1, 7);
    RemBy7(day - 1);
    var x := dayOfWeek - back + 7;
    assert 0 <= x;
    var f := x % 7;
    assert f == Rem(x, 7);
    var k := x / 7;
    assert x == 7 * k + f;
    var w := if back == e then 1 - k + q else 2 - k + q;
    assert f + (day - 1) == dayOfWeek + 7 * w;
    ShiftByWeeks(dayOfWeek, w);
    assert dayOfWeek - (day - 1) == f + 7 * (-w);
    ShiftByWeeks(f, -w);
  }

  /** The first weekday is the only weekday that puts today in its own
      column; equivalently it lies `day - 1` days (modulo 7) before today. */
  lemma FirstDayOfWeekUnique(year: int, month: int, dayOfWeek: int, day: int, f: int)
    requires 0 <= dayOfWeek <= 6 && 0 <= f <= 6
    ensures (f + (day - 1)) % 7 == dayOfWeek <==> f == FirstDayOfWeek(year, month, dayOfWeek, day)
    ensures FirstDayOfWeek(year, month, dayOfWeek, day) == (dayOfWeek - (day - 1)) % 7
  {
    var first := FirstDayOfWeek(year, month, dayOfWeek, day);
    WeekAlignment(dayOfWeek, day);
    var e := (day - 1) % 7;
    var q := (day - 1) / 7;
    assert day - 1 == e + 7 * q;
    ShiftByWeeks(f + e, q);
    ShiftByWeeks(first + e, q);
    assert (f + (day - 1)) % 7 == (f + e) % 7;
    assert (first + e) % 7 == dayOfWeek;
  }

  /** Moving by whole weeks keeps the weekday. */
  lemma ShiftByWeeks(x: int, q: int)
    ensures (x + 7 * q) % 7 == x % 7
  {
    var r := x % 7;
    assert x == 7 * (x / 7) + r;
    assert x + 7 * q == 7 * (x / 7 + q) + r;
  }

  /** The first weekday depends on neither the year nor the month asked for. */
  lemma FirstDayOfWeekIgnoresMonth(y1: int, m1: int, y2: int, m2: int, dayOfWeek: int, day: int)
    ensures FirstDayOfWeek(y1, m1, dayOfWeek, day) == FirstDayOfWeek(y2, m2, dayOfWeek, day)
  {
  }

  /** The lengths of Baishakh ... Chaitra in the fixed fallback table. */
  const MonthLengths: seq<int> := [31, 31, 31, 32, 31, 31, 30, 30, 30, 29, 30, 30]

  /** The length of month `month` (1 = Baishakh) by the fixed table, 30 for
      a month outside 1..12; the year is not used. */
  function DaysInMonth(year: int, month: int): (days: int)
    ensures 29 <= days <= 32
    ensures !(1 <= month <= 12) ==> days == 30
    ensures days == 32 <==> month == 4
    ensures days == 29 <==> month == 10
    ensures 1 <= month <= 12 ==> days == MonthLengths[month - 1]
  {
    if 1 <= month <= 12 then MonthLengths[month - 1] else 30
  }

  /** The table does not depend on the year. */
  lemma DaysInMonthIgnoresYear(y1: int, y2: int, month: int)
    ensures DaysInMonth(y1, month) == DaysInMonth(y2, month)
  {
  }
}
