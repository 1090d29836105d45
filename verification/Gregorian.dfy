/**
 Day numbers ("DSE", days since 1 January 1990) and the proleptic Gregorian
 calendar, as computed in src/main.c.

 Months run from 0 to 11.  The tables of src/globals.h are written out; the C
 divisions are only ever applied to non-negative operands here, where C and
 Dafny agree.
 */
module Gregorian {

  const BASE := 1990
  const YR_RANGE := 4000

  datatype Date = Date(y: int, m: int, d: int)

  predicate IsLeapYear(y: int) {
    y % 4 == 0 && (y % 100 != 0 || y % 400 == 0)
  }

  function DaysInYear(y: int): int {
    if IsLeapYear(y) then 366 else 365
  }

  /** Longest possible length of each month. */
  function MonthDays(m: int): int
    requires 0 <= m < 12
  {
    [31, 29, 31, 30, 31, 30, 31, 31, 30, 31, 30, 31][m]
  }

  function DaysInMonth(m: int, y: int): int
    requires 0 <= m < 12
  {
    if m != 1 then MonthDays(m) else if IsLeapYear(y) then 29 else 28
  }

  /** First day of each month, counted from 1 January. */
  function MonthIndex(leap: bool, m: int): int
    requires 0 <= m < 12
  {
    if leap then [0, 31, 60, 91, 121, 152, 182, 213, 244, 274, 305, 335][m]
    else [0, 31, 59, 90, 120, 151, 181, 212, 243, 273, 304, 334][m]
  }

  predicate ValidDate(c: Date) {
    BASE <= c.y && 0 <= c.m < 12 && 1 <= c.d <= DaysInMonth(c.m, c.y)
  }

  function DSE(y: int, m: int, d: int): int
    requires 1 <= y && 0 <= m < 12
  {
    var y1, y2 := BASE - 1, y - 1;
    var y4 := y2 / 4 - y1 / 4;
    var y100 := y2 / 100 - y1 / 100;
    var y400 := y2 / 400 - y1 / 400;
    365 * (y - BASE) + y4 - y100 + y400 + MonthIndex(IsLeapYear(y), m) + d - 1
  }

  /** The calendar itself, independently of any formula: the day after `c`. */
  function NextDay(c: Date): Date
    requires ValidDate(c)
  {
    if c.d < DaysInMonth(c.m, c.y) then Date(c.y, c.m, c.d + 1)
    else if c.m < 11 then Date(c.y, c.m + 1, 1)
    else Date(c.y + 1, 0, 1)
  }

  /** The date reached from 1 January 1990 by turning `n` pages of the calendar. */
  function DateAt(n: nat): (c: Date)
    ensures ValidDate(c)
  {
    if n == 0 then Date(BASE, 0, 1) else NextDay(DateAt(n - 1))
  }

  // ----- Counting by years -----

  /** Days from 1 January 1990 to 1 January of year `y`, year by year. */
  function DaysToYear(y: int): int
    requires BASE <= y
    decreases y
  {
    if y == BASE then 0 else DaysToYear(y - 1) + DaysInYear(y - 1)
  }

  function DayNumber(c: Date): int
    requires BASE <= c.y && 0 <= c.m < 12
  {
    DaysToYear(c.y) + MonthIndex(IsLeapYear(c.y), c.m) + c.d - 1
  }

  lemma LeapDays(y: int)
    requires 1990 <= y
    ensures y / 4 - y / 100 + y / 400 == (y - 1) / 4 - (y - 1) / 100 + (y - 1) / 400 + (if IsLeapYear(y) then 1 else 0)
  {
    var q, r := y / 400, y % 400;
    assert y == 400 * q + r;
    assert (y - 1) / 400 == if r == 0 then q - 1 else q;
    assert y / 100 == 4 * q + r / 100 && y / 4 == 100 * q + r / 4;
    assert (y - 1) / 100 == if r % 100 == 0 then y / 100 - 1 else y / 100;
    assert (y - 1) / 4 == if r % 4 == 0 then y / 4 - 1 else y / 4;
  }

  /** The closed formula for the start of a year. */
  lemma {:induction false} YearFormula(y: int)
    requires BASE <= y
    ensures DaysToYear(y) == 365 * (y - 1990) + (y - 1) / 4 - 497 - ((y - 1) / 100 - 19) + ((y - 1) / 400 - 4)
    decreases y
  {
    if y > BASE {
      YearFormula(y - 1);
      LeapDays(y - 1);
    }
  }

  /** The formula of DSE counts the days of the years, months and days before the date. */
  lemma DSEIsDayNumber(c: Date)
    requires BASE <= c.y && 0 <= c.m < 12
    ensures DSE(c.y, c.m, c.d) == DayNumber(c)
  {
    YearFormula(c.y);
  }

  lemma YearsApart(y: int, z: int)
    requires BASE <= y <= z
    ensures DaysToYear(y) + 365 * (z - y) <= DaysToYear(z) <= DaysToYear(y) + 366 * (z - y)
    decreases z - y
  {
    if y < z {
      YearsApart(y, z - 1);
    }
  }

  lemma MonthStep(leap: bool, m: int)
    requires 0 <= m < 12
    ensures MonthIndex(leap, m) + (if m != 1 then MonthDays(m) else if leap then 29 else 28)
            == if m < 11 then MonthIndex(leap, m + 1) else if leap then 366 else 365
  {
  }

  lemma NextDaySteps(c: Date)
    requires ValidDate(c)
    ensures DayNumber(NextDay(c)) == DayNumber(c) + 1
  {
    MonthStep(IsLeapYear(c.y), c.m);
  }

  /** The n-th page of the calendar has day number n. */
  lemma {:induction false} DayNumberOfDateAt(n: nat)
    ensures DayNumber(DateAt(n)) == n
  {
    if n != 0 {
      DayNumberOfDateAt(n - 1);
      NextDaySteps(DateAt(n - 1));
    }
  }

  predicate Before(a: Date, b: Date) {
    a.y < b.y || (a.y == b.y && (a.m < b.m || (a.m == b.m && a.d < b.d)))
  }

  lemma WithinYear(c: Date)
    requires ValidDate(c)
    ensures DaysToYear(c.y) <= DayNumber(c) < DaysToYear(c.y + 1)
  {
    MonthStep(IsLeapYear(c.y), c.m);
  }

  lemma MonthsApart(leap: bool, m: int, k: int)
    requires 0 <= m < k < 12
    ensures MonthIndex(leap, m) + (if m != 1 then MonthDays(m) else if leap then 29 else 28) <= MonthIndex(leap, k)
  {
  }

  lemma DayNumberMonotone(a: Date, b: Date)
    requires ValidDate(a) && ValidDate(b) && Before(a, b)
    ensures DayNumber(a) < DayNumber(b)
  {
    if a.y < b.y {
      WithinYear(a);
      WithinYear(b);
      YearsApart(a.y + 1, b.y);
    } else if a.m < b.m {
      MonthsApart(IsLeapYear(a.y), a.m, b.m);
    }
  }

  /** Day numbers order the valid dates. */
  lemma DayNumberOrder(a: Date, b: Date)
    requires ValidDate(a) && ValidDate(b)
    ensures Before(a, b) <==> DayNumber(a) < DayNumber(b)
    ensures a == b <==> DayNumber(a) == DayNumber(b)
  {
    if Before(a, b) {
      DayNumberMonotone(a, b);
    } else if Before(b, a) {
      DayNumberMonotone(b, a);
    }
  }

  /** Every valid date is some page of the calendar, found at its day number. */
  lemma DateAtDayNumber(c: Date)
    requires ValidDate(c)
    ensures DayNumber(c) >= 0
    ensures DateAt(DayNumber(c)) == c
  {
    WithinYear(c);
    YearsApart(BASE, c.y);
    var n := DayNumber(c);
    DayNumberOfDateAt(n);
    DayNumberOrder(c, DateAt(n));
  }

  /** DSE is an order isomorphism from the valid dates onto the day numbers, with inverse DateAt. */
  lemma DSEInverse(a: Date, b: Date)
    requires ValidDate(a) && ValidDate(b)
    ensures DSE(a.y, a.m, a.d) >= 0 && DateAt(DSE(a.y, a.m, a.d)) == a
    ensures Before(a, b) <==> DSE(a.y, a.m, a.d) < DSE(b.y, b.m, b.d)
  {
    DSEIsDayNumber(a);
    DSEIsDayNumber(b);
    DateAtDayNumber(a);
    DayNumberOrder(a, b);
  }

  lemma DSEOfDateAt(n: nat)
    ensures var c := DateAt(n); DSE(c.y, c.m, c.d) == n
  {
    DayNumberOfDateAt(n);
    DSEIsDayNumber(DateAt(n));
  }

  /** The search of the original: over-estimate the year, walk back, then walk the months. */
  method FromDSE(dse0: int) returns (y: int, m: int, d: int)
    requires dse0 >= 0
    ensures Date(y, m, d) == DateAt(dse0)
  {
    var dse := dse0;
    var tryYr := dse / 365 + BASE;
    var tryMon := 0;
    var y1, y2 := BASE - 1, tryYr - 1;
    var y4 := y2 / 4 - y1 / 4;
    var y100 := y2 / 100 - y1 / 100;
    var y400 := y2 / 400 - y1 / 400;
    var tryDse := 365 * (tryYr - BASE) + y4 - y100 + y400;
    YearFormula(tryYr);
    YearsApart(BASE, tryYr);
    while tryDse > dse
      invariant BASE <= tryYr
      invariant tryDse == DaysToYear(tryYr)
      invariant dse < DaysToYear(tryYr + 1)
      decreases tryYr
    {
      tryYr := tryYr - 1;
      tryDse := tryDse - DaysInYear(tryYr);
    }
    y := tryYr;
    dse := dse - tryDse;
    var t := DaysInMonth(tryMon, tryYr);
    while dse >= t
      invariant 0 <= tryMon < 12 && 0 <= dse
      invariant t == DaysInMonth(tryMon, tryYr)
      invariant DayNumber(Date(y, tryMon, 1)) + dse == dse0
      decreases 12 - tryMon
    {
      MonthStep(IsLeapYear(y), tryMon);
      dse := dse - t;
      tryMon := tryMon + 1;
      t := DaysInMonth(tryMon, tryYr);
    }
    m := tryMon;
    d := dse + 1;
    DateAtDayNumber(Date(y, m, d));
  }

  // ----- Julian dates -----

  /** Days to add to a Julian date read as if it were Gregorian. */
  method JulianToGregorianOffset(y: int, m: int) returns (offset: int)
    requires BASE <= y && 0 <= m < 12
    ensures offset == JulianOffset(y, m)
  {
    JulianOffsetCases(y);
    offset := 13;
    if y >= 2100 {
      var centuries := (y - 2000) / 100;
      var fourCenturies := (y - 2000) / 400;
      offset := offset + centuries - fourCenturies;
      if y % 100 == 0 && y % 400 != 0 {
        if m < 2 {
          offset := offset - 1;
        }
      }
    }
  }

  lemma JulianOffsetCases(y: int)
    requires 1989 <= y
    ensures y / 400 == y / 100 / 4
    ensures (y - 1) / 100 == if y % 100 == 0 then y / 100 - 1 else y / 100
    ensures (y / 100 - 1) / 4 == if y / 100 % 4 == 0 then y / 400 - 1 else y / 400
    ensures y % 100 == 0 ==> (y % 400 == 0 <==> y / 100 % 4 == 0)
    ensures y >= 2100 ==> (y - 2000) / 100 == y / 100 - 20 && (y - 2000) / 400 == y / 400 - 5
  {
    var q, r := y / 400, y % 400;
    assert y == 400 * q + r;
    assert y / 100 == 4 * q + r / 100;
  }

  /** Century days dropped by the Gregorian calendar up to month m of year y, plus a constant. */
  function JulianOffset(y: int, m: int): int
    requires BASE <= y
  {
    var c := (if m < 2 then y - 1 else y) / 100;
    c - c / 4 - 2
  }

  /** Day number of a Julian date by the Julian rule: every fourth year is leap. */
  function JulianDSE(y: int, m: int, d: int): int
    requires 1 <= y && 0 <= m < 12
  {
    365 * (y - BASE) + (y - 1) / 4 - (BASE - 1) / 4 + MonthIndex(y % 4 == 0, m) + d - 1 + 13
  }

  /** The offset turns the Gregorian reading of a Julian date into its true day number. */
  lemma JulianOffsetCorrect(y: int, m: int, d: int)
    requires BASE <= y && 0 <= m < 12
    ensures DSE(y, m, d) + JulianOffset(y, m) == JulianDSE(y, m, d)
  {
    JulianOffsetCases(y);
    JulianOffsetCases(y - 1);
    LeapDays(y);
    MonthIndexLeap(m, IsLeapYear(y), y % 4 == 0);
  }

  lemma MonthIndexLeap(m: int, l: bool, k: bool)
    requires 0 <= m < 12
    ensures MonthIndex(k, m) - MonthIndex(l, m) == if m < 2 || k == l then 0 else if k then 1 else -1
  {
  }
}
