/**
 * The proleptic Gregorian calendar as Python's `datetime.date` uses it: which dates exist,
 * the day number `toordinal()` gives them, the weekday, and the English month and weekday
 * names that pandas' `month_name()` and `day_name()` return.
 */
module Calendar {

  datatype Date = Date(year: nat, month: nat, day: nat)

  predicate IsLeapYear(y: nat) {
    y % 4 == 0 && (y % 100 != 0 || y % 400 == 0)
  }

  function DaysInYear(y: nat): nat {
    if IsLeapYear(y) then 366 else 365
  }

  function DaysInMonth(y: nat, m: nat): (n: nat)
    requires 1 <= m <= 12
    ensures 28 <= n <= 31
  {
    if m == 2 then (if IsLeapYear(y) then 29 else 28)
    else if m == 4 || m == 6 || m == 9 || m == 11 then 30
    else 31
  }

  /** The date exists (`datetime.date(year, month, day)` would not raise); year 1 is
      `datetime.MINYEAR`. */
  predicate ValidDate(d: Date) {
    1 <= d.year && 1 <= d.month <= 12 && 1 <= d.day <= DaysInMonth(d.year, d.month)
  }

  /** A timestamp to the minute, as parsed from the transcript (no seconds, no zone). */
  datatype DateTime = DateTime(date: Date, hour: nat, minute: nat)

  predicate ValidDateTime(t: DateTime) {
    ValidDate(t.date) && t.hour < 24 && t.minute < 60
  }

  /** Days in the years 1 .. y-1, in closed form. */
  function DaysBeforeYear(y: nat): nat
    requires 1 <= y
  {
    var p := y - 1;
    365 * p + p / 4 - p / 100 + p / 400
  }

  /** Days in the months 1 .. m-1 of year y. */
  function DaysBeforeMonth(y: nat, m: nat): nat
    requires 1 <= m <= 12
  {
    var table := [0, 31, 59, 90, 120, 151, 181, 212, 243, 273, 304, 334];
    table[m - 1] + (if m > 2 && IsLeapYear(y) then 1 else 0)
  }

  /** `date.toordinal()`: 0001-01-01 is day 1. */
  function Ordinal(d: Date): nat
    requires ValidDate(d)
  {
    DaysBeforeYear(d.year) + DaysBeforeMonth(d.year, d.month) + d.day
  }

  /** `date.weekday()`: Monday is 0, Sunday is 6. */
  function Weekday(d: Date): (w: nat)
    requires ValidDate(d)
    ensures w < 7
  {
    (Ordinal(d) + 6) % 7
  }

  const DayNames: seq<string> := ["Monday", "Tuesday", "Wednesday", "Thursday", "Friday", "Saturday", "Sunday"]

  const MonthNames: seq<string> :=
    ["January", "February", "March", "April", "May", "June",
     "July", "August", "September", "October", "November", "December"]

  /** `Timestamp.day_name()`. */
  function DayName(d: Date): (name: string)
    requires ValidDate(d)
    ensures name in DayNames
  {
    DayNames[Weekday(d)]
  }

  /** `Timestamp.month_name()`. */
  function MonthName(m: nat): (name: string)
    requires 1 <= m <= 12
    ensures name in MonthNames
  {
    MonthNames[m - 1]
  }

  // ---------------------------------------------------------------- reference definitions

  /** Days in the years 1 .. y-1, counted year by year. */
  function YearsDays(y: nat): nat
    requires 1 <= y
  {
    if y == 1 then 0 else YearsDays(y - 1) + DaysInYear(y - 1)
  }

  lemma DivStep(q: int)
    requires q >= 1
    ensures q / 4 - (q - 1) / 4 == (if q % 4 == 0 then 1 else 0)
    ensures q / 100 - (q - 1) / 100 == (if q % 100 == 0 then 1 else 0)
    ensures q / 400 - (q - 1) / 400 == (if q % 400 == 0 then 1 else 0)
  {
  }

  lemma Mod400IsMod100(p: int)
    requires p >= 1
    ensures p % 400 == 0 ==> p % 100 == 0
  {
    if p % 400 == 0 {
      var k := p / 400;
      assert p == 400 * k;
      assert p - 100 * (4 * k) == 0;
    }
  }

  lemma Mod100IsMod4(p: int)
    requires p >= 1
    ensures p % 100 == 0 ==> p % 4 == 0
  {
    if p % 100 == 0 {
      var k := p / 100;
      assert p == 100 * k;
      assert p - 4 * (25 * k) == 0;
    }
  }

  /** Going from year y to year y + 1 adds the length of year y. */
  lemma DaysBeforeYearStep(y: nat)
    requires 1 <= y
    ensures DaysBeforeYear(y + 1) == DaysBeforeYear(y) + DaysInYear(y)
  {
    DivStep(y);
    Mod400IsMod100(y);
    Mod100IsMod4(y);
    var p := y - 1;
    assert DaysBeforeYear(y) == 365 * p + p / 4 - p / 100 + p / 400;
    assert DaysBeforeYear(y + 1) == 365 * y + y / 4 - y / 100 + y / 400;
  }

  /** The closed form of DaysBeforeYear adds up the lengths of the years before y. */
  lemma {:induction false} DaysBeforeYearIsSum(y: nat)
    requires 1 <= y
    ensures DaysBeforeYear(y) == YearsDays(y)
  {
    if y > 1 {
      DaysBeforeYearIsSum(y - 1);
      DaysBeforeYearStep(y - 1);
    }
  }

  /** The day after d. */
  function NextDay(d: Date): (n: Date)
    requires ValidDate(d)
    ensures ValidDate(n)
  {
    if d.day < DaysInMonth(d.year, d.month) then Date(d.year, d.month, d.day + 1)
    else if d.month < 12 then Date(d.year, d.month + 1, 1)
    else Date(d.year + 1, 1, 1)
  }

  lemma MonthStep(y: nat, m: nat)
    requires 1 <= m < 12
    ensures DaysBeforeMonth(y, m + 1) == DaysBeforeMonth(y, m) + DaysInMonth(y, m)
  {
  }

  lemma YearEnd(y: nat)
    ensures DaysBeforeMonth(y, 12) + DaysInMonth(y, 12) == DaysInYear(y)
  {
  }

  /** Day numbers are consecutive: the day after d is numbered one more than d. */
  lemma NextDayOrdinal(d: Date)
    requires ValidDate(d)
    ensures Ordinal(NextDay(d)) == Ordinal(d) + 1
  {
    if d.day == DaysInMonth(d.year, d.month) {
      if d.month < 12 {
        MonthStep(d.year, d.month);
      } else {
        DaysBeforeYearStep(d.year);
        YearEnd(d.year);
      }
    }
  }

  /** Weekdays follow each other: the day after d falls on the next weekday. */
  lemma NextDayWeekday(d: Date)
    requires ValidDate(d)
    ensures Weekday(NextDay(d)) == (Weekday(d) + 1) % 7
  {
    NextDayOrdinal(d);
    ModSuccessor(Ordinal(d) + 6);
  }

  lemma ModSuccessor(o: nat)
    ensures (o + 1) % 7 == (o % 7 + 1) % 7
  {
  }

  /** Dates compared as `datetime.date` compares them: by year, then month, then day. */
  predicate DateLt(a: Date, b: Date) {
    a.year < b.year
    || (a.year == b.year && a.month < b.month)
    || (a.year == b.year && a.month == b.month && a.day < b.day)
  }

  lemma DateLtIsStrictTotalOrder()
    ensures forall a: Date :: !DateLt(a, a)
    ensures forall a: Date, b: Date, c: Date :: DateLt(a, b) && DateLt(b, c) ==> DateLt(a, c)
    ensures forall a: Date, b: Date :: a == b || DateLt(a, b) || DateLt(b, a)
  {
  }

  lemma {:induction false} YearsDaysGrow(y: nat, z: nat)
    requires 1 <= y <= z
    ensures YearsDays(y) + (if y < z then DaysInYear(y) else 0) <= YearsDays(z)
    decreases z - y
  {
    if y < z {
      YearsDaysGrow(y + 1, z);
    }
  }

  /** The order of dates is the order of their day numbers. */
  lemma DateLtIsChronological(a: Date, b: Date)
    requires ValidDate(a) && ValidDate(b)
    ensures DateLt(a, b) <==> Ordinal(a) < Ordinal(b)
  {
    DaysBeforeYearIsSum(a.year);
    DaysBeforeYearIsSum(b.year);
    assert DaysBeforeMonth(a.year, a.month) + a.day <= DaysInYear(a.year);
    assert DaysBeforeMonth(b.year, b.month) + b.day <= DaysInYear(b.year);
    if a.year < b.year {
      YearsDaysGrow(a.year, b.year);
    } else if b.year < a.year {
      YearsDaysGrow(b.year, a.year);
    }
  }

  /** Two fixed points of the calendar: 1 January 1970 was a Thursday and 1 January 2024 a
      Monday. */
  lemma KnownWeekdays()
    ensures DayName(Date(1970, 1, 1)) == "Thursday"
    ensures DayName(Date(2024, 1, 1)) == "Monday"
  {
  }
}
