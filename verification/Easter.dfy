/**
 Western and Orthodox Easter (src/funcs.c, FEasterdate and FOrthodoxeaster).

 The argument of the functions is modelled by two cases: a year, with `base` -1,
 or a date `base`, whose search starts in its own year.
 */
module Easter {
  import opened Gregorian

  const SUNDAY := 6      // day 0, 1 January 1990, was a Monday

  /** The remainder of C, which has the sign of the dividend. */
  function CMod(a: int, b: int): int
    requires b > 0
  {
    if a >= 0 then a % b else -((-a) % b)
  }

  /** `d` is the first Sunday after day `n`. */
  predicate SundayAfter(d: int, n: int) {
    n < d <= n + 7 && d % 7 == SUNDAY
  }

  // ----- Western Easter -----

  /** Age of the moon (epact) in year `y`, adjusted as in the original. */
  function Epact(y: int): (e: int)
    requires BASE <= y
    ensures 0 <= e < 30 && e != 24
  {
    var g, c := y % 19 + 1, y / 100 + 1;
    var e := (11 * g + 20 + ((8 * c + 5) / 25 - 5) - (3 * c / 4 - 12)) % 30;
    if e == 24 || (e == 25 && g > 11) then e + 1 else e
  }

  /** The Paschal full moon as a day of March: a day on which the epact makes the moon full, from the 21st on. */
  function PaschalMoon(y: int): (n: int)
    requires BASE <= y
    ensures 21 <= n <= 49
  {
    var e := Epact(y);
    if e <= 23 then 44 - e else 74 - e
  }

  /** The lunar table in the form of Gauss: full moons fall back 11 days a year, and are moved at each century. */
  function GaussMoon(y: int): int
    requires BASE <= y
  {
    var k, a := y / 100, y % 19;
    var m := (15 - (13 + 8 * k) / 25 + k - k / 4) % 30;
    var h := (19 * a + m) % 30;
    if h == 29 || (h == 28 && a > 10) then 21 + h - 1 else 21 + h
  }

  /** The epact of the original gives the full moons of that table, for all years. */
  lemma MoonIsGauss(y: int)
    requires BASE <= y
    ensures PaschalMoon(y) == GaussMoon(y)
  {
    var k, a := y / 100, y % 19;
    var p, q := (13 + 8 * k) / 25, k - k / 4;
    assert 3 * (k + 1) / 4 == q;
    assert (8 * (k + 1) + 5) / 25 == p;
    var e := 11 * (a + 1) + 20 + (p - 5) - (q - 12);
    Complement(e, 19 * a + (15 - p + q), a + 1);
    SumMod(19 * a, 15 - p + q);
    MoonsAgree(e % 30, (19 * a + (15 - p + q) % 30) % 30, a);
  }

  /** The moon by its age, and by the days that it falls back. */
  lemma MoonsAgree(e: int, h: int, a: int)
    requires 0 <= e < 30 && h == if e <= 23 then 23 - e else 53 - e
    ensures var e' := if e == 24 || (e == 25 && a + 1 > 11) then e + 1 else e;
            (if e' <= 23 then 44 - e' else 74 - e') == (if h == 29 || (h == 28 && a > 10) then 21 + h - 1 else 21 + h)
  {
  }

  lemma SumMod(a: int, b: int)
    ensures (a + b % 30) % 30 == (a + b) % 30
  {
    var q, r := (a + b % 30) / 30, (a + b % 30) % 30;
    assert a + b == 30 * (q + b / 30) + r;
  }

  lemma Complement(e: int, h: int, n: int)
    requires e + h == 30 * n + 23
    ensures h % 30 == if e % 30 <= 23 then 23 - e % 30 else 53 - e % 30
  {
    var q, r := e / 30, e % 30;
    assert h == 30 * (n - q) + (23 - r);
    if r > 23 {
      assert h == 30 * (n - q - 1) + (53 - r);
    }
  }

  /** The full moons of the years 1900 to 2199 as days of March, by the golden number. */
  const MOONS: seq<int> := [45, 34, 23, 42, 31, 49, 39, 28, 47, 36, 25, 44, 33, 22, 41, 30, 48, 38, 27]

  lemma MoonTable(y: int)
    requires BASE <= y < 2200
    ensures PaschalMoon(y) == MOONS[y % 19]
  {
    hide PaschalMoon;
    MoonIsGauss(y);
    CenturyTerm(y / 100);
    TableOf(y % 19);
  }

  lemma CenturyTerm(k: int)
    requires 19 <= k <= 21
    ensures (15 - (13 + 8 * k) / 25 + k - k / 4) % 30 == 24
  {
  }

  lemma TableOf(a: int)
    requires 0 <= a < 19
    ensures var h := (19 * a + 24) % 30; MOONS[a] == if h == 29 || (h == 28 && a > 10) then 21 + h - 1 else 21 + h
  {
  }

  /** Day number of the n-th of March, n possibly running into April. */
  function MarchDay(y: int, n: int): int
    requires BASE <= y
  {
    365 * y + y / 4 - y / 100 + y / 400 + n - 726774
  }

  lemma MarchDays(y: int, n: int)
    requires BASE <= y
    ensures DSE(y, 2, n) == MarchDay(y, n) && DSE(y, 3, n - 31) == MarchDay(y, n)
  {
    LeapDays(y);
  }

  /** Easter is the first Sunday after the Paschal full moon, and always from 22 March to 25 April. */
  function EasterDay(y: int): (d: int)
    requires BASE <= y
    ensures SundayAfter(d, MarchDay(y, PaschalMoon(y)))
    ensures MarchDay(y, 22) <= d <= MarchDay(y, 31 + 25)
  {
    NextSunday(MarchDay(y, PaschalMoon(y)))
  }

  function NextSunday(n: int): (d: int)
    ensures SundayAfter(d, n)
  {
    n + 7 - (n + 1) % 7
  }

  /** No other day is the first Sunday after the full moon. */
  lemma EasterIsTheSunday(y: int, d: int)
    requires BASE <= y
    ensures SundayAfter(d, MarchDay(y, PaschalMoon(y))) <==> d == EasterDay(y)
  {
    if SundayAfter(d, MarchDay(y, PaschalMoon(y))) {
      SundayAfterUnique(d, EasterDay(y), MarchDay(y, PaschalMoon(y)));
    }
  }

  /** An early, a late and two middling Easters. */
  lemma KnownEasters()
    ensures EasterDay(2008) == DSE(2008, 2, 23) && EasterDay(2038) == DSE(2038, 3, 25)
    ensures EasterDay(2022) == DSE(2022, 3, 17) && EasterDay(2024) == DSE(2024, 2, 31)
  {
    hide EasterDay, DSE;
    KnownEaster(2008, 22, 23);
    KnownEaster(2038, 49, 56);
    KnownEaster(2022, 47, 48);
    KnownEaster(2024, 25, 31);
    MarchDays(2008, 23);
    MarchDays(2038, 56);
    MarchDays(2022, 48);
    MarchDays(2024, 31);
  }

  lemma KnownEaster(y: int, moon: int, n: int)
    requires BASE <= y < 2200 && MOONS[y % 19] == moon && moon < n <= moon + 7 && MarchDay(y, n) % 7 == SUNDAY
    ensures EasterDay(y) == MarchDay(y, n)
  {
    hide EasterDay, PaschalMoon;
    MoonTable(y);
    EasterIsTheSunday(y, MarchDay(y, n));
  }

  lemma SundayAfterUnique(a: int, b: int, n: int)
    requires SundayAfter(a, n) && SundayAfter(b, n)
    ensures a == b
  {
    var q, r := a / 7, b / 7;
  }

  /** The original's count of Sundays: 5y/4 - x - 10 plus a day of March falls with the weekday. */
  lemma SundayNumber(y: int, n: int)
    requires BASE <= y
    ensures var x := 3 * (y / 100 + 1) / 4 - 12;
            5 * y / 4 - x - 10 + n == (MarchDay(y, n) + 1) - 7 * (52 * y - 103825)
  {
    var c := y / 100;
    assert 3 * (c + 1) / 4 == c - c / 4;
    assert y / 400 == c / 4;
    assert 5 * y / 4 == y + y / 4;
  }

  lemma Mod7Shift(a: int, k: int)
    ensures (a - 7 * k) % 7 == a % 7
  {
  }

  method EasterOfYear(y: int) returns (dse: int)
    requires BASE <= y
    ensures dse == EasterDay(y)
  {
    var g := y % 19 + 1;
    var c := y / 100 + 1;
    var x := 3 * c / 4 - 12;
    var z := (8 * c + 5) / 25 - 5;
    var d := 5 * y / 4 - x - 10;
    var e := CMod(11 * g + 20 + z - x, 30);
    EpactMod(11 * g + 20 + z - x);
    if e < 0 { e := e + 30; }
    if e == 24 || (e == 25 && g > 11) { e := e + 1; }
    var n := 44 - e;
    if n < 21 { n := n + 30; }
    assert n == PaschalMoon(y);
    SundayNumber(y, n);
    Mod7Shift(MarchDay(y, n) + 1, 52 * y - 103825);
    Positive(y, n);
    assert (d + n) % 7 == (MarchDay(y, n) + 1) % 7;
    d := n + 7 - CMod(d + n, 7);
    MarchDays(y, d);
    var m;
    if d <= 31 {
      m := 2;
    } else {
      d := d - 31;
      m := 3;
    }
    dse := DSE(y, m, d);
  }

  /** Correcting a negative remainder of C gives the mathematical one. */
  lemma EpactMod(a: int)
    ensures a % 30 == if CMod(a, 30) < 0 then CMod(a, 30) + 30 else CMod(a, 30)
  {
    var q, r := (-a) / 30, (-a) % 30;
    if a < 0 {
      assert a == 30 * (if r == 0 then -q else -q - 1) + (if r == 0 then 0 else 30 - r);
    }
  }

  lemma Positive(y: int, n: int)
    requires BASE <= y && 0 <= n
    ensures 5 * y / 4 - (3 * (y / 100 + 1) / 4 - 12) - 10 + n >= 0
  {
  }

  /** FEasterdate with a date: the year is raised until Easter is not before `base`. */
  method FEasterdate(y0: int, base: int) returns (retval: int)
    requires BASE <= y0 && (base >= 0 ==> y0 == DateAt(base).y)
    ensures base < 0 ==> retval == EasterDay(y0)
    ensures base >= 0 ==> retval == EasterDay(y0) || retval == EasterDay(y0 + 1)
    ensures base >= 0 ==> base <= retval
    ensures base >= 0 ==> forall y | BASE <= y && base <= EasterDay(y) :: retval <= EasterDay(y)
  {
    hide EasterDay, SundayAfter, DateAt, DaysToYear, DayNumber;
    var y := y0;
    retval := EasterOfYear(y);
    y := y + 1;
    if base >= 0 {
      StartYear(base);
      EastersInOrder(y0, y0 + 1);
    }
    while base > -1 && retval < base
      invariant y == y0 + 1 || (y == y0 + 2 && base >= 0 && EasterDay(y0) < base <= retval)
      invariant retval == EasterDay(y - 1)
      decreases y0 + 2 - y
    {
      retval := EasterOfYear(y);
      y := y + 1;
    }
    if base >= 0 {
      EasterLeast(y0, y - 1, base);
    }
  }

  lemma EasterLeast(y0: int, y: int, base: int)
    requires BASE <= y0 <= y <= y0 + 1 && base <= EasterDay(y) && (y0 < y ==> EasterDay(y0) < base)
    requires DaysToYear(y0) <= base
    ensures forall z | BASE <= z && base <= EasterDay(z) :: EasterDay(y) <= EasterDay(z)
  {
    hide EasterDay, DaysToYear;
    forall z | BASE <= z && base <= EasterDay(z)
      ensures EasterDay(y) <= EasterDay(z)
    {
      EastersInOrder(y, z);
      EastersInOrder(z, y0);
    }
  }

  lemma StartYear(base: nat)
    ensures DaysToYear(DateAt(base).y) <= base < DaysToYear(DateAt(base).y + 1)
  {
    DayNumberOfDateAt(base);
    WithinYear(DateAt(base));
  }

  lemma EasterInYear(y: int)
    requires BASE <= y
    ensures DaysToYear(y) <= EasterDay(y) < DaysToYear(y + 1)
  {
    MarchDays(y, 22);
    MarchDays(y, 56);
    DSEIsDayNumber(Date(y, 2, 22));
    DSEIsDayNumber(Date(y, 3, 25));
    WithinYear(Date(y, 2, 22));
    WithinYear(Date(y, 3, 25));
  }

  lemma EastersInOrder(y: int, z: int)
    requires BASE <= y && BASE <= z
    ensures y < z ==> EasterDay(y) < DaysToYear(z) <= EasterDay(z)
  {
    hide EasterDay;
    EasterInYear(y);
    EasterInYear(z);
    if y < z {
      YearsApart(y + 1, z);
    }
  }

  // ----- Orthodox Easter -----

  /** Julian Easter by Meeus: month and day of the Julian calendar. */
  function JulianEasterDay(y: int): (f: int)
    requires BASE <= y
    ensures 114 <= f <= 149
  {
    var dd := (19 * (y % 19) + 15) % 30;
    var e := (2 * (y % 4) + 4 * (y % 7) - dd + 34) % 7;
    dd + e + 114
  }

  /** Orthodox Easter: the Julian date brought into the Gregorian calendar. */
  function OrthodoxDay(y: int): int
    requires BASE <= y
  {
    var f := JulianEasterDay(y);
    JulianDSE(y, f / 31 - 1, f % 31 + 1)
  }

  /** The nineteen full moons of the Julian calendar as days of March, by the golden number. */
  const JULIAN_MOONS: seq<int> := [36, 25, 44, 33, 22, 41, 30, 49, 38, 27, 46, 35, 24, 43, 32, 21, 40, 29, 48]

  lemma JulianMoonTable(y: int)
    ensures 21 + (19 * (y % 19) + 15) % 30 == JULIAN_MOONS[y % 19]
  {
  }

  /** It is the first Sunday after the Julian Paschal moon. */
  lemma OrthodoxIsSunday(y: int)
    requires BASE <= y
    ensures SundayAfter(OrthodoxDay(y), JulianDSE(y, 2, JULIAN_MOONS[y % 19]))
  {
    JulianMoonTable(y);
    var dd := (19 * (y % 19) + 15) % 30;
    var a, b := y % 4, y % 7;
    var q := y / 4;
    var e := (2 * a + 4 * b - dd + 34) % 7;
    var f := dd + e + 114;
    JulianMarch(y, dd + 22 + e);
    JulianMarch(y, dd + 21);
    assert OrthodoxDay(y) == JulianDSE(y, 2, dd + 22 + e);
    JulianWeekday(y, dd, e);
  }

  /** March and April in one count, under Julian leap years. */
  lemma JulianMarch(y: int, n: int)
    requires BASE <= y
    ensures JulianDSE(y, 2, n) == 365 * y + y / 4 + n - 726776
    ensures JulianDSE(y, 3, n - 31) == JulianDSE(y, 2, n)
  {
    assert (y - 1) / 4 == if y % 4 == 0 then y / 4 - 1 else y / 4;
  }

  lemma JulianWeekday(y: int, dd: int, e: int)
    requires BASE <= y && 0 <= dd < 30 && e == (2 * (y % 4) + 4 * (y % 7) - dd + 34) % 7
    ensures (365 * y + y / 4 + dd + 22 + e - 726776) % 7 == SUNDAY
  {
    var k := (2 * (y % 4) + 4 * (y % 7) - dd + 34) / 7;
    var q, r, s, b := y / 4, y % 4, y / 7, y % 7;
    assert 2 * r + 4 * b - dd + 34 == 7 * k + e;
    // y + q = 4q + r + q = 5q + r, and 5q = 3r - 2y + 7(...)
    assert y == 4 * q + r && y == 7 * s + b;
  }

  method OrthodoxOfYear(y: int) returns (dse: int)
    requires BASE <= y
    ensures dse == OrthodoxDay(y)
  {
    var a := y % 4;
    var b := y % 7;
    var c := y % 19;
    var dd := (19 * c + 15) % 30;
    var e := (2 * a + 4 * b - dd + 34) % 7;
    var f := dd + e + 114;
    var m := f / 31 - 1;
    var d := f % 31 + 1;
    dse := DSE(y, m, d);
    JulianOffsetCorrect(y, m, d);
    var offset := JulianToGregorianOffset(y, m);
    dse := dse + offset;
  }

  /** The Julian calendar falls behind the Gregorian year by year, but never by a year's worth per year. */
  lemma OrthodoxBounds(y: int)
    requires BASE <= y
    ensures DaysToYear(y) < OrthodoxDay(y)
    ensures y <= BASE + YR_RANGE ==> OrthodoxDay(y) < DaysToYear(y + 1)
    ensures OrthodoxDay(y) + 330 <= OrthodoxDay(y + 1)
  {
    OrthodoxMarch(y);
    OrthodoxMarch(y + 1);
    YearFormula(y);
    YearFormula(y + 1);
  }

  lemma OrthodoxMarch(y: int)
    requires BASE <= y
    ensures 22 <= OrthodoxDay(y) - (365 * y + y / 4 - 726776) <= 57
  {
    var f := JulianEasterDay(y);
    JulianMarch(y, f - 92);
    assert OrthodoxDay(y) == JulianDSE(y, 2, f - 92);
  }

  lemma OrthodoxInOrder(y: int, z: int)
    requires BASE <= y < z
    ensures OrthodoxDay(y) < OrthodoxDay(z)
    decreases z - y
  {
    hide OrthodoxDay;
    OrthodoxBounds(z - 1);
    if y < z - 1 {
      OrthodoxInOrder(y, z - 1);
    }
  }

  /**
   FOrthodoxeaster: the first Orthodox Easter on or after `base` that lies in a
   year from that of `base` on.  It is the first of all exactly when the Easter
   of the year before is over, as it always is in the years Remind supports.
   */
  method FOrthodoxeaster(y0: int, base: int) returns (retval: int)
    requires BASE <= y0 && (base >= 0 ==> y0 == DateAt(base).y)
    ensures base < 0 ==> retval == OrthodoxDay(y0)
    ensures base >= 0 ==> retval == OrthodoxDay(y0) || retval == OrthodoxDay(y0 + 1)
    ensures base >= 0 ==> base <= retval && forall y | y0 <= y && base <= OrthodoxDay(y) :: retval <= OrthodoxDay(y)
    ensures base >= 0 ==>
              ((forall y | BASE <= y && base <= OrthodoxDay(y) :: retval <= OrthodoxDay(y))
               <==> (y0 > BASE ==> OrthodoxDay(y0 - 1) < base))
    ensures base >= 0 && y0 <= BASE + YR_RANGE ==> (y0 > BASE ==> OrthodoxDay(y0 - 1) < base)
  {
    hide OrthodoxDay, DateAt, DaysToYear, DayNumber;
    var y := y0;
    retval := OrthodoxOfYear(y);
    y := y + 1;
    if base >= 0 {
      StartYear(base);
      OrthodoxBounds(y0 + 1);
      if y0 > BASE { OrthodoxBounds(y0 - 1); }
    }
    while base > -1 && retval < base
      invariant y == y0 + 1 || (y == y0 + 2 && base >= 0 && OrthodoxDay(y0) < base <= retval)
      invariant retval == OrthodoxDay(y - 1)
      decreases y0 + 2 - y
    {
      retval := OrthodoxOfYear(y);
      y := y + 1;
    }
    if base >= 0 {
      OrthodoxLeast(y0, y - 1, base);
    }
  }

  lemma OrthodoxLeast(y0: int, y: int, base: int)
    requires BASE <= y0 <= y <= y0 + 1 && base <= OrthodoxDay(y) && (y0 < y ==> OrthodoxDay(y0) < base)
    ensures forall z | y0 <= z && base <= OrthodoxDay(z) :: OrthodoxDay(y) <= OrthodoxDay(z)
    ensures (forall z | BASE <= z && base <= OrthodoxDay(z) :: OrthodoxDay(y) <= OrthodoxDay(z))
            <==> (y0 > BASE ==> OrthodoxDay(y0 - 1) < base)
  {
    hide OrthodoxDay;
    forall z | y < z ensures OrthodoxDay(y) < OrthodoxDay(z) {
      OrthodoxInOrder(y, z);
    }
    if y0 > BASE {
      OrthodoxInOrder(y0 - 1, y);
      forall z | BASE <= z < y0 - 1 ensures OrthodoxDay(z) < OrthodoxDay(y0 - 1) {
        OrthodoxInOrder(z, y0 - 1);
      }
    }
  }
}
