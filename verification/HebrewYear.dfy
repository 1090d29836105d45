/**
 The Hebrew year: molad, postponements, year lengths and month lengths
 (src/hbcal.c).  Time of day is counted in parts, 1080 to the hour.

 Years are considered from 3744 on, where the argument of DaysToHebYear is
 non-negative.
 */
module HebrewYear {

  // A day has 25920 parts, a week 181440, and a lunation 29 days 12 hours 793
  // parts: 765433, which is 39673 more than four weeks.  The figures are written
  // out so that all arithmetic stays linear for the verifier.
  const CORRECTION := 732774
  const EPOCH_YEAR := 3744

  const HESHVAN := 1
  const KISLEV := 2
  const TEVET := 3
  const SHVAT := 4
  const ADARA := 5
  const ADARB := 6
  const NISAN := 7
  const ADAR := 13

  /** The table of leap years of the 19-year cycle. */
  predicate HebIsLeap(hy: int)
    requires EPOCH_YEAR <= hy
  {
    LeapAt((hy - 1) % 19)
  }

  predicate LeapAt(r: int) {
    r == 2 || r == 5 || r == 7 || r == 10 || r == 13 || r == 16 || r == 18
  }

  // ----- The calendar by its traditional rules -----

  /** Leap months before Tishrey of EPOCH_YEAR + y. */
  function LeapMonthsBefore(y: nat): nat {
    (7 * y + 1) / 19
  }

  /** Lunar months from the epoch to Tishrey of year EPOCH_YEAR + y. */
  function MonthsBefore(y: nat): nat {
    12 * y + LeapMonthsBefore(y)
  }

  /** Mean conjunction of Tishrey, in parts; a lunation is 29 days, 12 hours, 793 parts. */
  function Molad(y: nat): nat {
    MonthsBefore(y) * 765433 + 1859
  }

  /** Days by which the new year is put off; `w` is the weekday of the molad, Saturday being 0. */
  function Postponement(w: int, parts: int, leap: bool, afterLeap: bool): (n: int)
    ensures 0 <= n <= 2
  {
    var zaken := parts >= 19440;                                 // Molad Zaken: noon, counted from 6 pm
    var gatarad := !leap && w == 3 && parts >= 9924;
    var betutakpat := afterLeap && w == 2 && parts >= 16789;
    var n := if zaken || gatarad || betutakpat then 1 else 0;
    if w + n in {1, 4, 6} then n + 1 else n                            // ADU
  }

  /** Days to the new year of EPOCH_YEAR + y: the day of the molad, postponed. */
  function NewYear(y: nat): int {
    var day, parts := Molad(y) / 25920, Molad(y) % 25920;
    day - 2 + Postponement(day % 7, parts, HebIsLeap(EPOCH_YEAR + y), HebIsLeap(EPOCH_YEAR + y + 18))
  }

  function RoshHashana(hy: int): int
    requires EPOCH_YEAR <= hy
  {
    NewYear(hy - EPOCH_YEAR) - CORRECTION
  }

  function YearLength(hy: int): int
    requires EPOCH_YEAR <= hy
  {
    NewYear(hy - EPOCH_YEAR + 1) - NewYear(hy - EPOCH_YEAR)
  }

  // ----- The arithmetic of the original -----

  /** Position in the 19-year cycle decides whether this and the previous year are leap. */
  lemma CyclePosition(y: nat)
    ensures (7 * y + 1) % 19 < 12 <==> !HebIsLeap(EPOCH_YEAR + y)
    ensures (7 * y + 1) % 19 < 7 <==> HebIsLeap(EPOCH_YEAR + y + 18)
    ensures (7 * y + 8) / 19 == (7 * y + 1) / 19 + (if HebIsLeap(EPOCH_YEAR + y) then 1 else 0)
  {
    hide LeapAt;
    var q, r := y / 19, y % 19;
    Div19(EPOCH_YEAR + y - 1, q + 197, r);
    Div19(EPOCH_YEAR + y + 18 - 1, if r == 0 then q + 197 else q + 198, if r == 0 then 18 else r - 1);
    var u, v := (7 * r + 1) / 19, (7 * r + 1) % 19;
    Div19(7 * y + 1, 7 * q + u, v);
    Div19(7 * y + 8, if v < 12 then 7 * q + u else 7 * q + u + 1, if v < 12 then v + 7 else v - 12);
    LeapTable(r);
  }

  /** The table agrees with spreading 7 leap months evenly over 19 years. */
  lemma LeapTable(r: nat)
    requires r < 19
    ensures (7 * r + 1) % 19 < 12 <==> !LeapAt(r)
    ensures (7 * r + 1) % 19 < 7 <==> LeapAt(if r == 0 then 18 else r - 1)
  {
  }

  lemma Div19(a: nat, q: nat, r: nat)
    requires a == 19 * q + r && r < 19
    ensures a / 19 == q && a % 19 == r
  {
  }

  lemma DivDay(a: nat, q: nat, r: nat)
    requires a == q * 25920 + r && r < 25920
    ensures a / 25920 == q && a % 25920 == r
  {
  }

  lemma SplitMolad(m: nat, nm: nat)
    ensures (m * 725760 + nm) / 25920 == m * 28 + nm / 25920
    ensures (m * 725760 + nm) % 25920 == nm % 25920
    ensures (m * 28 + nm / 25920) % 7 == nm % 181440 / 25920
    ensures nm % 181440 % 25920 == nm % 25920
  {
    var q, r := nm / 25920, nm % 25920;
    var u, v := q / 7, q % 7;
    DivDay(m * 725760 + nm, m * 28 + q, r);
    DivWeek(nm, u, v * 25920 + r);
    DivDay(v * 25920 + r, v, r);
    Div7(m * 28 + q, 4 * m + u, v);
  }

  lemma DivWeek(a: nat, q: nat, r: nat)
    requires a == q * 181440 + r && r < 181440
    ensures a / 181440 == q && a % 181440 == r
  {
  }

  lemma Div7(a: int, q: int, r: nat)
    requires a == 7 * q + r && r < 7
    ensures a / 7 == q && a % 7 == r
  {
  }

  method DaysToHebYear(y: nat) returns (s: int)
    ensures s == NewYear(y)
  {
    var l := y * 7 + 1;
    var m := y * 12 + l / 19;
    var nm := m * 39673 + 1859;
    SplitMolad(m, nm);
    CyclePosition(y);
    assert Molad(y) == m * 725760 + nm;
    s := m * 28 + nm / 25920 - 2;

    nm := nm % 181440;
    l := l % 19;
    var dw := nm / 25920;
    nm := nm % 25920;

    if nm >= 19440 || (l < 12 && dw == 3 && nm >= 9924) || (l < 7 && dw == 2 && nm >= 16789) {
      s := s + 1;
      dw := dw + 1;
    }
    if dw == 1 || dw == 4 || dw == 6 {
      s := s + 1;
    }
  }

  // ----- Weekdays and lengths of years -----

  /** Rosh Hashana is never a Sunday, Wednesday or Friday (day 0, 1 January 1990, was a Monday). */
  lemma NewYearWeekday(hy: int)
    requires EPOCH_YEAR <= hy
    ensures RoshHashana(hy) % 7 !in {6, 2, 4}
  {
    var y := hy - EPOCH_YEAR;
    hide Molad, HebIsLeap;
    var day, parts := Molad(y) / 25920, Molad(y) % 25920;
    WeekdayAfter(day, Postponement(day % 7, parts, HebIsLeap(EPOCH_YEAR + y), HebIsLeap(EPOCH_YEAR + y + 18)));
  }

  lemma WeekdayAfter(day: nat, n: int)
    requires 0 <= n <= 2 && day % 7 + n !in {1, 4, 6, 8}
    ensures (day - 2 + n - CORRECTION) % 7 !in {6, 2, 4}
  {
    var q, w := day / 7, day % 7;
    var v := w + n - 2;
    Div7(day - 2 + n - CORRECTION, if v < 0 then q - 104683 else q - 104682, if v < 0 then v + 7 else v);
  }

  /** The molad moves on by 354 days 8 hours 876 parts, or in a leap year by 383 days 21 hours 589 parts. */
  lemma MoladStep(y: nat)
    ensures HebIsLeap(EPOCH_YEAR + y) ==> Molad(y + 1) == Molad(y) + 9950629
    ensures !HebIsLeap(EPOCH_YEAR + y) ==> Molad(y + 1) == Molad(y) + 9185196
  {
    LeapMonths(y);
    var m, n := MonthsBefore(y), MonthsBefore(y + 1);
    assert n == m + (if HebIsLeap(EPOCH_YEAR + y) then 13 else 12);
  }

  lemma YearLengths(hy: int)
    requires EPOCH_YEAR <= hy
    ensures if HebIsLeap(hy) then 383 <= YearLength(hy) <= 385 else 353 <= YearLength(hy) <= 355
  {
    hide Molad, HebIsLeap;
    var y := hy - EPOCH_YEAR;
    var leap := HebIsLeap(hy);
    var parts := Molad(y) % 25920;
    var carry, w' := NextMolad(y, leap);
    NoTwoLeaps(hy);
    LengthCases(Molad(y) / 25920 % 7, w', parts, leap, HebIsLeap(hy + 18), HebIsLeap(hy + 1));
  }

  /** Day, weekday and parts of the next year's molad. */
  lemma NextMolad(y: nat, leap: bool) returns (carry: int, w': int)
    requires leap == HebIsLeap(EPOCH_YEAR + y)
    ensures var rest := if leap then 23269 else 9516;
            && carry == (if Molad(y) % 25920 + rest >= 25920 then 1 else 0)
            && Molad(y + 1) / 25920 == Molad(y) / 25920 + (if leap then 383 else 354) + carry
            && Molad(y + 1) % 25920 == Molad(y) % 25920 + rest - carry * 25920
    ensures w' == Molad(y + 1) / 25920 % 7 == (Molad(y) / 25920 % 7 + (if leap then 5 else 4) + carry) % 7
  {
    MoladStep(y);
    var day, parts := Molad(y) / 25920, Molad(y) % 25920;
    var step, rest := if leap then 383 else 354, if leap then 23269 else 9516;
    carry := if parts + rest >= 25920 then 1 else 0;
    DivDay(Molad(y + 1), day + step + carry, parts + rest - carry * 25920);
    w' := WeekdayStep(day, leap, carry);
  }

  lemma WeekdayStep(day: nat, leap: bool, carry: int) returns (w': int)
    requires 0 <= carry <= 1
    ensures w' == (day % 7 + (if leap then 5 else 4) + carry) % 7
    ensures (day + (if leap then 383 else 354) + carry) % 7 == w'
  {
    var q, w := day / 7, day % 7;
    var v := w + (if leap then 5 else 4) + carry;
    w' := v % 7;
    Div7(day + (if leap then 383 else 354) + carry, q + (if leap then 54 else 50) + v / 7, w');
  }

  lemma NoTwoLeaps(hy: int)
    requires EPOCH_YEAR <= hy
    ensures HebIsLeap(hy) ==> !HebIsLeap(hy + 1) && !HebIsLeap(hy + 18)
    ensures HebIsLeap(hy + 19) == HebIsLeap(hy)
  {
    var q, r := (hy - 1) / 19, (hy - 1) % 19;
    Div19(hy, if r == 18 then q + 1 else q, if r == 18 then 0 else r + 1);
    Div19(hy + 17, if r == 0 then q else q + 1, if r == 0 then 18 else r - 1);
    Div19(hy + 18, q + 1, r);
  }

  /** All 7 weekdays of the molad, for the five ways a year can lie among leap years. */
  lemma LengthCases(w: int, w': int, parts: nat, leap: bool, afterLeap: bool, nextLeap: bool)
    requires 0 <= w < 7 && parts < 25920
    requires leap ==> !afterLeap && !nextLeap
    requires var carry := if parts + (if leap then 23269 else 9516) >= 25920 then 1 else 0;
             w' == (w + (if leap then 5 else 4) + carry) % 7
    ensures var step := if leap then 383 else 354;
            var rest := if leap then 23269 else 9516;
            var carry := if parts + rest >= 25920 then 1 else 0;
            var len := step + carry
                       + Postponement(w', parts + rest - carry * 25920, nextLeap, leap)
                       - Postponement(w, parts, leap, afterLeap);
            if leap then 383 <= len <= 385 else 353 <= len <= 355
  {
    if w == 0 {
    } else if w == 1 {
    } else if w == 2 {
    } else if w == 3 {
    } else if w == 4 {
    } else if w == 5 {
    } else {
    }
  }

  // ----- Months -----

  /** Length of month `m` in a year of `ylen` days (13 is Adar, a name for Adar A or Adar B). */
  function MonthLength(ylen: int, m: int): int
    requires 0 <= m <= 13
  {
    var base := if ylen > 355 then ylen - 30 else ylen;
    if m == ADARA then (if ylen > 355 then 30 else 0)
    else if m == KISLEV then (if base == 353 then 29 else 30)
    else if m == HESHVAN then (if base == 355 then 30 else 29)
    else [30, 0, 0, 29, 30, 0, 29, 30, 29, 30, 29, 30, 29, 29][m]
  }

  /** Days of the year before month `m`. */
  function DaysBefore(ylen: int, m: int): int
    requires 0 <= m <= 13
  {
    if m == 0 then 0 else DaysBefore(ylen, m - 1) + MonthLength(ylen, m - 1)
  }

  predicate IsYearLength(ylen: int) {
    353 <= ylen <= 355 || 383 <= ylen <= 385
  }

  /** Where the months begin; the thirteen of them fill the year. */
  lemma MonthTable(ylen: int)
    requires IsYearLength(ylen)
    ensures DaysBefore(ylen, HESHVAN) == 30
    ensures DaysBefore(ylen, KISLEV) == 30 + MonthLength(ylen, HESHVAN)
    ensures DaysBefore(ylen, TEVET) == ylen - (if ylen > 355 then 30 else 0) - 265
    ensures DaysBefore(ylen, ADARA) == DaysBefore(ylen, TEVET) + 59
    ensures DaysBefore(ylen, ADARB) == DaysBefore(ylen, ADARA) + MonthLength(ylen, ADARA)
    ensures DaysBefore(ylen, NISAN) == DaysBefore(ylen, ADARB) + 29
    ensures DaysBefore(ylen, 13) == ylen
  {
    MonthSums(ylen, 0);
    MonthSums(ylen, 3);
    MonthSums(ylen, 6);
    MonthSums(ylen, 9);
    MonthSums(ylen, 10);
  }

  lemma MonthSums(ylen: int, m: int)
    requires 0 <= m <= 10
    ensures DaysBefore(ylen, m + 1) == DaysBefore(ylen, m) + MonthLength(ylen, m)
    ensures DaysBefore(ylen, m + 2) == DaysBefore(ylen, m + 1) + MonthLength(ylen, m + 1)
    ensures DaysBefore(ylen, m + 3) == DaysBefore(ylen, m + 2) + MonthLength(ylen, m + 2)
  {
  }

  lemma DaysBeforeMonotone(ylen: int, m: int, k: int)
    requires 0 <= m <= k <= 13
    ensures DaysBefore(ylen, m) <= DaysBefore(ylen, k)
    decreases k - m
  {
    if m < k {
      DaysBeforeMonotone(ylen, m, k - 1);
    }
  }

  // ----- The span of 19 years -----

  lemma LeapMonths(y: nat)
    ensures LeapMonthsBefore(y + 1) == LeapMonthsBefore(y) + (if HebIsLeap(EPOCH_YEAR + y) then 1 else 0)
    ensures LeapMonthsBefore(y + 19) == LeapMonthsBefore(y) + 7
  {
    CyclePosition(y);
    Div19(7 * (y + 19) + 1, (7 * y + 1) / 19 + 7, (7 * y + 1) % 19);
    assert 7 * (y + 1) + 1 == 7 * y + 8;
  }

  /** Unless some year is complete, n years take at most 354 days each, plus 30 for each leap month. */
  lemma {:induction false} IncompleteSpan(hy: int, n: nat)
    requires EPOCH_YEAR <= hy
    requires forall k :: hy <= k < hy + n ==> YearLength(k) !in {355, 385}
    ensures var y := hy - EPOCH_YEAR;
            RoshHashana(hy + n) - RoshHashana(hy)
            <= 354 * n + 30 * (LeapMonthsBefore(y + n) - LeapMonthsBefore(y))
  {
    hide NewYear, HebIsLeap, LeapMonthsBefore;
    if n > 0 {
      IncompleteSpan(hy, n - 1);
      var k := hy + n - 1;
      YearLengths(k);
      CyclePosition(k - EPOCH_YEAR);
      assert RoshHashana(k + 1) == RoshHashana(k) + YearLength(k);
      LeapMonths(k - EPOCH_YEAR);
    }
  }

  /** Nineteen years are 235 lunations: 6939 days 16 hours 595 parts, so at least 6937 days. */
  lemma CycleSpan(hy: int)
    requires EPOCH_YEAR <= hy
    ensures RoshHashana(hy + 19) - RoshHashana(hy) >= 6937
  {
    var y := hy - EPOCH_YEAR;
    LeapMonths(y);
    assert MonthsBefore(y + 19) == MonthsBefore(y) + 235;
    assert Molad(y + 19) == Molad(y) + 179876755;
    assert Molad(y + 19) / 25920 >= Molad(y) / 25920 + 6939;
  }

  /** Pigeonhole: among any 19 consecutive years one has a 30-day Heshvan. */
  lemma CompleteYear(hy: int) returns (k: int)
    requires EPOCH_YEAR <= hy
    ensures hy <= k < hy + 19 && YearLength(k) in {355, 385}
  {
    hide NewYear, LeapMonthsBefore;
    CycleSpan(hy);
    LeapMonths(hy - EPOCH_YEAR);
    if forall k' :: hy <= k' < hy + 19 ==> YearLength(k') !in {355, 385} {
      IncompleteSpan(hy, 19);
      assert false;
    }
    k :| hy <= k < hy + 19 && YearLength(k) in {355, 385};
  }

  /** Among any 19 consecutive years one is leap. */
  lemma LeapYear(hy: int) returns (k: int)
    requires EPOCH_YEAR <= hy
    ensures hy <= k < hy + 19 && HebIsLeap(k)
  {
    var r := (hy - 1) % 19;
    k := hy + (if r <= 2 then 2 - r else 21 - r);
    var q := (hy - 1) / 19;
    assert k - 1 == 19 * (if r <= 2 then q else q + 1) + 2;
    assert (k - 1) % 19 == 2;
  }

  /** New years come in order. */
  lemma NewYearsInOrder(a: int, b: int)
    requires EPOCH_YEAR <= a <= b
    ensures RoshHashana(a) + 353 * (b - a) <= RoshHashana(b)
    decreases b - a
  {
    hide NewYear, HebIsLeap;
    if a < b {
      YearLengths(b - 1);
      NewYearsInOrder(a, b - 1);
    }
  }
}
