/**
 Hebrew dates and day numbers, and the search for the next observance of a
 Hebrew date (src/hbcal.c).
 */
module HebrewDate {
  import opened Gregorian
  import opened HebrewYear
  import opened ObservanceSearch

  const OK := 0
  const E_DATE_OVER := 15
  const E_SWERR := 23
  const E_BAD_DATE := 24
  const E_BAD_HEBDATE := 60

  const JAHR_NONE := 0
  const JAHR_FORWARD := 1
  const JAHR_BACKWARD := 2

  /** The years HebToDSE accepts. */
  const FIRST_YEAR := BASE + 3761
  const LAST_YEAR := BASE + YR_RANGE + 3760

  function MaxMonLen(m: int): int
    requires 0 <= m <= 13
  {
    [30, 30, 30, 29, 30, 30, 29, 30, 29, 30, 29, 30, 29, 29][m]
  }

  predicate ValidHeb(hy: int, hm: int, hd: int) {
    EPOCH_YEAR <= hy && 0 <= hm <= 12 && 1 <= hd <= MonthLength(YearLength(hy), hm)
  }

  /** Day number of a Hebrew date. */
  function HebDay(hy: int, hm: int, hd: int): int
    requires EPOCH_YEAR <= hy && 0 <= hm <= 13
  {
    RoshHashana(hy) + DaysBefore(YearLength(hy), hm) + hd - 1
  }

  lemma HebDayInYear(hy: int, hm: int, hd: int)
    requires ValidHeb(hy, hm, hd)
    ensures RoshHashana(hy) <= HebDay(hy, hm, hd) < RoshHashana(hy + 1)
  {
    var ylen := YearLength(hy);
    YearLengths(hy);
    MonthTable(ylen);
    DaysBeforeMonotone(ylen, 0, hm);
    DaysBeforeMonotone(ylen, hm + 1, 13);
  }

  /** Different Hebrew dates have different day numbers, so the two conversions undo each other. */
  lemma HebDayInjective(hy: int, hm: int, hd: int, hy': int, hm': int, hd': int)
    requires ValidHeb(hy, hm, hd) && ValidHeb(hy', hm', hd')
    requires HebDay(hy, hm, hd) == HebDay(hy', hm', hd')
    ensures hy == hy' && hm == hm' && hd == hd'
  {
    hide NewYear, MonthLength;
    HebDayInYear(hy, hm, hd);
    HebDayInYear(hy', hm', hd');
    if hy < hy' {
      NewYearsInOrder(hy + 1, hy');
    } else if hy' < hy {
      NewYearsInOrder(hy' + 1, hy);
    } else if hm < hm' {
      DaysBeforeMonotone(YearLength(hy), hm + 1, hm');
    } else if hm' < hm {
      DaysBeforeMonotone(YearLength(hy), hm' + 1, hm);
    }
  }

  /** Adding 3763 to the Gregorian year never guesses too low. */
  lemma GuessNotTooLow(dse: nat)
    ensures dse < RoshHashana(DateAt(dse).y + 3763 + 1)
  {
    var c := DateAt(dse);
    DSEOfDateAt(dse);
    WithinYear(c);
    GuessBound(c.y);
  }

  /** The Hebrew year is longer on average, so the margin of three years only grows. */
  lemma GuessBound(g: int)
    requires BASE <= g
    ensures DSE(g + 1, 0, 1) <= RoshHashana(g + 3764)
  {
    var y := g + 20;
    var d := Molad(y) / 25920;
    assert 19 * LeapMonthsBefore(y) >= 7 * y + 1 - 18;
    assert 19 * MonthsBefore(y) >= 235 * y - 17;
    assert 19 * Molad(y) >= (235 * y - 17) * 765433 + 19 * 1859;
    assert d * 25920 > Molad(y) - 25920;
    assert RoshHashana(g + 3764) >= d - 2 - CORRECTION;
    assert 400 * DSE(g + 1, 0, 1) <= 146000 * (g - 1989) + 97 * g + 396 - 192800;
  }

  lemma FirstNewYears()
    ensures RoshHashana(5750) <= 0 < RoshHashana(5751)
    ensures !HebIsLeap(5750)
  {
    assert LeapMonthsBefore(2006) == 739 && LeapMonthsBefore(2007) == 739;
    DivDay(Molad(2006), 732683, 16662);
    DivDay(Molad(2007), 733038, 258);
  }

  // ----- Observances -----

  predicate ValidMonthDay(hm: int, hd: int) {
    0 <= hm <= 13 && 1 <= hd <= MaxMonLen(hm)
  }

  /** The month meant by `hm` in a year: Adar is Adar B, or Adar A where there is one and it is preferred. */
  function MonthNamed(hm: int, flag: int, leap: bool): (m: int)
    requires 0 <= hm <= 13
    ensures 0 <= m <= 12
  {
    if hm != ADAR then hm else if flag == ADAR2ADARA && leap then ADARA else ADARB
  }

  /**
   When, if ever, a date is kept in year `hy`, as a day number.  A day that the
   month lacks runs over into the following month under rule 1.  Under rule 2 it
   is the last day of the month before the missing one, except that days 1 to 29
   of a missing Adar A are kept in Adar B.
   */
  function Observed(hy: int, hm: int, hd: int, jahr: int, flag: int): Option<int>
    requires EPOCH_YEAR <= hy && ValidMonthDay(hm, hd)
  {
    var m := MonthNamed(hm, flag, HebIsLeap(hy));
    var nominal := HebDay(hy, m, hd);
    var missing := hd > MonthLength(YearLength(hy), m);
    if !missing || jahr == JAHR_FORWARD || (jahr == JAHR_BACKWARD && m == ADARA && hd < 30) then Some(nominal)
    else if jahr == JAHR_NONE then None
    else Some(if m == ADARA then nominal - hd else nominal - 1)
  }

  lemma LeapByLength(hy: int)
    requires EPOCH_YEAR <= hy
    ensures HebIsLeap(hy) <==> YearLength(hy) > 355
    ensures IsYearLength(YearLength(hy))
  {
    YearLengths(hy);
  }

  /** Only a 30th day of Heshvan or Kislev, or a day of Adar A, can be missing. */
  lemma Missing(hy: int, hm: int, hd: int, flag: int)
    requires EPOCH_YEAR <= hy && ValidMonthDay(hm, hd)
    ensures var m := MonthNamed(hm, flag, HebIsLeap(hy));
            var len := YearLength(hy);
            hd > MonthLength(len, m) ==>
              || (hm == m && m in {HESHVAN, KISLEV} && hd == 30 && len !in {355, 385} && MonthLength(len, m) == 29)
              || (hm == m == ADARA && !HebIsLeap(hy) && MonthLength(len, m) == 0)
  {
    LeapByLength(hy);
  }

  lemma ObservedInYear(hy: int, hm: int, hd: int, jahr: int, flag: int)
    requires EPOCH_YEAR <= hy && ValidMonthDay(hm, hd)
    ensures Observed(hy, hm, hd, jahr, flag).Some? ==>
              RoshHashana(hy) <= Observed(hy, hm, hd, jahr, flag).value < RoshHashana(hy + 1)
  {
    var m := MonthNamed(hm, flag, HebIsLeap(hy));
    LeapByLength(hy);
    MonthTable(YearLength(hy));
    Missing(hy, hm, hd, flag);
    if hd <= MonthLength(YearLength(hy), m) {
      HebDayInYear(hy, m, hd);
    }
  }

  lemma AdarAFirst(hy: int, hd: int, jahr: int)
    requires EPOCH_YEAR <= hy && 1 <= hd <= 29
    ensures var a := Observed(hy, ADAR, hd, jahr, ADAR2ADARA);
            var b := Observed(hy, ADAR, hd, jahr, ADAR2ADARB);
            a.Some? && b.Some? && a.value <= b.value
  {
    LeapByLength(hy);
    MonthTable(YearLength(hy));
  }

  // ----- What becomes of dates, rule by rule -----

  /** A date that the year has is kept on its day; one it lacks is not, without a rule. */
  lemma OrdinaryDate(hy: int, hm: int, hd: int, jahr: int, flag: int)
    requires EPOCH_YEAR <= hy && ValidMonthDay(hm, hd) && hm != ADAR
    ensures ValidHeb(hy, hm, hd) ==> Observed(hy, hm, hd, jahr, flag) == Some(HebDay(hy, hm, hd))
    ensures !ValidHeb(hy, hm, hd) ==> Observed(hy, hm, hd, JAHR_NONE, flag) == None
  {
  }

  /** A date in Adar is always kept: in leap years in the Adar that is preferred, else in the only one. */
  lemma AdarDate(hy: int, hd: int, jahr: int)
    requires EPOCH_YEAR <= hy && 1 <= hd <= 29
    ensures ValidHeb(hy, ADARB, hd) && Observed(hy, ADAR, hd, jahr, ADAR2ADARB) == Some(HebDay(hy, ADARB, hd))
    ensures HebIsLeap(hy) ==>
              ValidHeb(hy, ADARA, hd) && Observed(hy, ADAR, hd, jahr, ADAR2ADARA) == Some(HebDay(hy, ADARA, hd))
    ensures !HebIsLeap(hy) ==>
              !ValidHeb(hy, ADARA, hd) && Observed(hy, ADAR, hd, jahr, ADAR2ADARA) == Some(HebDay(hy, ADARB, hd))
  {
    LeapByLength(hy);
  }

  /** One date comes after another in the year, whether the year has them or not. */
  predicate LaterInYear(hm: int, hd: int, hm': int, hd': int) {
    hm < hm' || (hm == hm' && hd < hd')
  }

  /** The first and the last day that the year has beyond a 30th that it lacks. */
  predicate AroundMissing(hm: int, after: (int, int), before: (int, int)) {
    || (hm == HESHVAN && after == (KISLEV, 1) && before == (HESHVAN, 29))
    || (hm == KISLEV && after == (TEVET, 1) && before == (KISLEV, 29))
    || (hm == ADARA && after == (NISAN, 1) && before == (SHVAT, 30))
  }

  /** The month whose end is meant: the Adar A of a common year is its only Adar. */
  function StandsFor(hm: int): int {
    if hm == ADARA then ADARB else hm
  }

  /**
   A 30th that the year lacks is kept on the first day that it has after the month
   under rule 1, and on the last day that it has before the 30th under rule 2.
   */
  lemma MissingThirtieth(hy: int, hm: int, flag: int) returns (after: (int, int), before: (int, int))
    requires EPOCH_YEAR <= hy && ValidMonthDay(hm, 30) && hm != ADAR && !ValidHeb(hy, hm, 30)
    ensures AroundMissing(hm, after, before)
    ensures ValidHeb(hy, after.0, after.1) && LaterInYear(StandsFor(hm), 30, after.0, after.1)
    ensures ValidHeb(hy, before.0, before.1) && LaterInYear(before.0, before.1, hm, 30)
    ensures forall m, d | ValidHeb(hy, m, d) ::
              && (LaterInYear(StandsFor(hm), 30, m, d) ==> !LaterInYear(m, d, after.0, after.1))
              && (LaterInYear(m, d, hm, 30) ==> !LaterInYear(before.0, before.1, m, d))
    ensures Observed(hy, hm, 30, JAHR_FORWARD, flag) == Some(HebDay(hy, after.0, after.1))
    ensures Observed(hy, hm, 30, JAHR_BACKWARD, flag) == Some(HebDay(hy, before.0, before.1))
  {
    hide YearLength, HebIsLeap, HebDay, MonthLength;
    OnlyMissing(hy, hm, 30);
    after := if hm == HESHVAN then (KISLEV, 1) else if hm == KISLEV then (TEVET, 1) else (NISAN, 1);
    before := if hm == HESHVAN then (HESHVAN, 29) else if hm == KISLEV then (KISLEV, 29) else (SHVAT, 30);
    AroundValid(hy, hm, after, before);
    MissingKept(hy, hm, flag, after, before);
  }

  lemma AroundValid(hy: int, hm: int, after: (int, int), before: (int, int))
    requires EPOCH_YEAR <= hy && AroundMissing(hm, after, before) && !ValidHeb(hy, hm, 30)
    ensures ValidHeb(hy, after.0, after.1) && ValidHeb(hy, before.0, before.1)
    ensures forall m, d | ValidHeb(hy, m, d) ::
              && (LaterInYear(StandsFor(hm), 30, m, d) ==> !LaterInYear(m, d, after.0, after.1))
              && (LaterInYear(m, d, hm, 30) ==> !LaterInYear(before.0, before.1, m, d))
  {
    hide YearLength;
    LeapByLength(hy);
  }

  lemma MissingKept(hy: int, hm: int, flag: int, after: (int, int), before: (int, int))
    requires EPOCH_YEAR <= hy && AroundMissing(hm, after, before) && !ValidHeb(hy, hm, 30)
    ensures Observed(hy, hm, 30, JAHR_FORWARD, flag) == Some(HebDay(hy, after.0, after.1))
    ensures Observed(hy, hm, 30, JAHR_BACKWARD, flag) == Some(HebDay(hy, before.0, before.1))
  {
    hide YearLength;
    LeapByLength(hy);
    MonthTable(YearLength(hy));
    assert DaysBefore(YearLength(hy), ADARA) == DaysBefore(YearLength(hy), SHVAT) + 30;
  }

  /** The other days of a missing Adar A are kept on the same day of Adar B, under both rules. */
  lemma MissingAdarA(hy: int, hd: int, jahr: int, flag: int)
    requires EPOCH_YEAR <= hy && 1 <= hd <= 29 && !HebIsLeap(hy) && jahr in {JAHR_FORWARD, JAHR_BACKWARD}
    ensures !ValidHeb(hy, ADARA, hd) && ValidHeb(hy, ADARB, hd)
    ensures Observed(hy, ADARA, hd, jahr, flag) == Some(HebDay(hy, ADARB, hd))
  {
    LeapByLength(hy);
    MonthTable(YearLength(hy));
  }

  /** No other date can be missing. */
  lemma OnlyMissing(hy: int, hm: int, hd: int)
    requires EPOCH_YEAR <= hy && ValidMonthDay(hm, hd) && hm != ADAR && !ValidHeb(hy, hm, hd)
    ensures (hm in {HESHVAN, KISLEV} && hd == 30) || (hm == ADARA && !HebIsLeap(hy))
  {
    Missing(hy, hm, hd, ADAR2ADARB);
  }

  /** Pigeonhole: any date is kept at least once in 19 consecutive years. */
  lemma KeptWithin19(hy: int, hm: int, hd: int, jahr: int) returns (k: int)
    requires EPOCH_YEAR <= hy && ValidMonthDay(hm, hd)
    ensures hy <= k < hy + 19
    ensures forall flag :: Observed(k, hm, hd, jahr, flag).Some?
  {
    if hm == ADARA {
      k := LeapYear(hy);
    } else {
      k := CompleteYear(hy);
    }
    forall flag ensures Observed(k, hm, hd, jahr, flag).Some? {
      Missing(k, hm, hd, flag);
    }
  }

  /** The schedule of a date. */
  function Kept(hm: int, hd: int, jahr: int): Schedule
    requires ValidMonthDay(hm, hd)
  {
    (hy, flag) => if EPOCH_YEAR <= hy then Observed(hy, hm, hd, jahr, flag) else None
  }

  // ----- The functions of the original, which share one static table of month lengths -----

  class HebrewCalendar {
    const monlen: array<int>

    ghost predicate Valid()
      reads monlen
    {
      && monlen.Length == 14
      && forall m | 0 <= m < 14 && m !in {HESHVAN, KISLEV, ADARA} :: monlen[m] == MonthLength(354, m)
    }

    constructor ()
      ensures Valid() && fresh(monlen)
    {
      monlen := new int[14] [30, 29, 30, 29, 30, 0, 29, 30, 29, 30, 29, 30, 29, 29];
    }

    /** Rewrites the three entries of the table that depend on the year. */
    method DaysInHebMonths(ylen0: int)
      requires Valid()
      modifies monlen
      ensures Valid()
      ensures forall m | 0 <= m < 14 :: monlen[m] == MonthLength(ylen0, m)
    {
      var ylen := ylen0;
      if ylen > 355 {
        monlen[ADARA] := 30;
        ylen := ylen - 30;
      } else {
        monlen[ADARA] := 0;
      }
      if ylen == 353 { monlen[KISLEV] := 29; } else { monlen[KISLEV] := 30; }
      if ylen == 355 { monlen[HESHVAN] := 30; } else { monlen[HESHVAN] := 29; }
    }

    method DaysInHebYear(hy: int) returns (n: int)
      requires EPOCH_YEAR <= hy
      ensures n == YearLength(hy)
    {
      var thisyear := DaysToHebYear(hy - 3744);
      var nextyear := DaysToHebYear(hy - 3743);
      n := nextyear - thisyear;
    }

    method HebToDSE(hy: int, hm: int, hd: int) returns (rh: int)
      requires Valid() && 0 <= hm <= 13
      modifies monlen
      ensures Valid()
      ensures rh == if FIRST_YEAR <= hy <= LAST_YEAR then HebDay(hy, hm, hd) else -1
    {
      if hy - 3761 < BASE || hy - 3760 > BASE + YR_RANGE { return -1; }
      var ylen := DaysInHebYear(hy);
      DaysInHebMonths(ylen);
      rh := DaysToHebYear(hy - 3744);
      rh := rh - CORRECTION;
      for m := 0 to hm
        invariant rh == RoshHashana(hy) + DaysBefore(ylen, m)
      {
        rh := rh + monlen[m];
      }
      rh := rh + hd - 1;
    }

    method DSEToHeb(dse0: int) returns (hy: int, hm: int, hd: int)
      requires Valid() && 0 <= dse0
      modifies monlen
      ensures Valid()
      ensures FIRST_YEAR - 1 <= hy && ValidHeb(hy, hm, hd) && HebDay(hy, hm, hd) == dse0
    {
      hide NewYear, Molad;
      var dse := dse0;
      var y, m, d := FromDSE(dse);
      y := y + 3763;
      GuessNotTooLow(dse);
      FirstNewYears();
      var rh := DaysToHebYear(y - 3744);
      rh := rh - CORRECTION;
      while rh > dse
        invariant Valid() && 5750 <= y && rh == RoshHashana(y) && dse < RoshHashana(y + 1)
        decreases y
      {
        y := y - 1;
        rh := DaysToHebYear(y - 3744);
        rh := rh - CORRECTION;
      }
      dse := dse - rh;
      var ylen := DaysInHebYear(y);
      DaysInHebMonths(ylen);
      LeapByLength(y);
      MonthTable(ylen);
      m := 0;
      while dse >= monlen[m] || monlen[m] == 0
        invariant 0 <= m <= 12 && 0 <= dse
        invariant dse0 == rh + DaysBefore(ylen, m) + dse
        decreases 12 - m
      {
        dse := dse - monlen[m];
        m := m + 1;
      }
      hy, hm, hd := y, m, dse + 1;
    }

    method GetValidHebDate(yin: int, min0: int, din: int, adarbehave: int, jahr: int)
      returns (r: int, mout: int, dout: int)
      requires Valid() && EPOCH_YEAR <= yin && 0 <= min0 <= 13
      requires 0 <= jahr <= 2 && adarbehave in {ADAR2ADARA, ADAR2ADARB}
      modifies monlen
      ensures Valid()
      ensures !ValidMonthDay(min0, din) ==> r == E_BAD_HEBDATE && dout == -1
      ensures ValidMonthDay(min0, din) ==>
                && dout != -1
                && match Observed(yin, min0, din, jahr, adarbehave)
                   case None => r == E_BAD_DATE
                   case Some(o) => r == OK && ValidHeb(yin, mout, dout) && HebDay(yin, mout, dout) == o
    {
      hide NewYear, HebIsLeap;
      var min := min0;
      mout := min;
      dout := din;
      if din < 1 || din > MaxMonLen(min) || min < 0 || min > 13 {
        dout := -1;
        return E_BAD_HEBDATE, mout, dout;
      }
      var ylen := DaysInHebYear(yin);
      DaysInHebMonths(ylen);
      LeapByLength(yin);
      MonthTable(ylen);
      Missing(yin, min, din, adarbehave);
      if min == ADAR {
        if adarbehave == ADAR2ADARA {
          if monlen[ADARA] != 0 { min := ADARA; } else { min := ADARB; }
        } else {
          min := ADARB;
        }
        mout := min;
      }
      if din <= monlen[min] { return OK, mout, dout; }
      if jahr == JAHR_NONE {
        return E_BAD_DATE, mout, dout;
      } else if jahr == JAHR_FORWARD {
        if min == KISLEV {
          return OK, TEVET, 1;
        } else if min == HESHVAN {
          return OK, KISLEV, 1;
        } else if min == ADARA {
          if din > 29 {
            return OK, NISAN, 1;
          } else {
            return OK, ADARB, din;
          }
        }
        assert false;    // the original reports a software error here
      } else {
        if min == KISLEV {
          return OK, KISLEV, 29;
        } else if min == HESHVAN {
          return OK, HESHVAN, 29;
        } else if min == ADARA {
          if din > 29 {
            return OK, SHVAT, 30;
          } else {
            return OK, ADARB, din;
          }
        }
        assert false;    // and here
      }
    }

    /**
     The next observance on or after `dsestart`.  It terminates; an answer is the
     least observance, within 20 years; and it fails exactly when the first year
     tried is 5750 and keeps the date, or no year up to LAST_YEAR keeps it in time.
     */
    method GetNextHebrewDate(dsestart: int, hm: int, hd: int, jahr: int, adarbehave: int)
      returns (r: int, ans: int)
      requires Valid() && 0 <= dsestart && 0 <= hm <= 13 && 0 <= jahr <= 2 && 0 <= adarbehave <= 2
      modifies monlen
      ensures Valid()
      ensures r == E_BAD_HEBDATE <==> !ValidMonthDay(hm, hd)
      ensures r == OK ==>
                var obs := Kept(hm, hd, jahr);
                && Observance(ans, obs, adarbehave)
                && dsestart <= ans
                && forall o | Observance(o, obs, adarbehave) && dsestart <= o :: ans <= o
      ensures ValidMonthDay(hm, hd) ==>
                if || (dsestart < RoshHashana(5751) && Observed(5750, hm, hd, jahr, ADAR2ADARB).Some?)
                   || !KeptBy(LAST_YEAR, dsestart, Kept(hm, hd, jahr), adarbehave)
                then r == E_DATE_OVER
                else r == OK
    {
      hide Observed, HebDay, RoshHashana, YearLength, Searching, Observance, KeptBy, MonthLength, Kept;
      ans := 0;
      var both := adarbehave == ADAR2BOTH && hm == ADAR;
      var adarflag := adarbehave;
      if adarbehave == ADAR2BOTH { adarflag := ADAR2ADARA; }
      var yout, mout, dout := DSEToHeb(dsestart);
      ghost var valid := ValidMonthDay(hm, hd);
      ghost var obs: Schedule := (y, f) => None;
      ghost var kept := yout;
      ghost var early := false;
      if valid {
        HebDayInYear(yout, mout, dout);
        obs := Kept(hm, hd, jahr);
        kept := SearchStart(yout, dsestart, hm, hd, jahr, adarbehave, adarflag);
        early := dsestart < RoshHashana(5751) && Observed(5750, hm, hd, jahr, ADAR2ADARB).Some?;
      }
      r := 1;
      var dse := 1;
      while r != 0
        invariant Valid() && r != 0 && (valid ==> obs == Kept(hm, hd, jahr))
        invariant FIRST_YEAR - 1 <= yout && adarflag in {ADAR2ADARA, ADAR2ADARB}
        invariant valid ==> Searching(yout, adarflag, kept, dsestart, obs, adarbehave, hm == ADAR)
        invariant early ==> yout == 5750
        invariant valid && yout == 5750 ==> dsestart < RoshHashana(5751)
        decreases kept - yout, adarflag
      {
        r, mout, dout := GetValidHebDate(yout, hm, hd, adarflag, jahr);
        if dout == -1 { return r, 0; }
        KeptIsObserved(yout, hm, hd, jahr, adarflag);
        SameIn5750(hm, hd, jahr, adarflag);
        if r != 0 {
          SearchStep(yout, adarflag, kept, dsestart, obs, adarbehave, hm == ADAR);
          var (y', f') := NextTry(both, yout, adarflag);
          yout, adarflag := y', f';
          continue;
        }
        dse := HebToDSE(yout, mout, dout);
        if dse < 0 {
          if FIRST_YEAR <= yout { AfterEpoch(yout, mout, dout); }
          if yout > LAST_YEAR {
            SearchOver(yout, adarflag, kept, dsestart, obs, adarbehave, hm == ADAR, LAST_YEAR);
          }
          return E_DATE_OVER, 0;
        }
        if dse >= dsestart {
          SearchFound(yout, adarflag, kept, dsestart, obs, adarbehave, hm == ADAR, LAST_YEAR);
          break;
        }
        SearchStep(yout, adarflag, kept, dsestart, obs, adarbehave, hm == ADAR);
        var (y', f') := NextTry(both, yout, adarflag);
        yout, adarflag := y', f';
        r := 1;
      }
      ans := dse;
      r := OK;
    }
  }

  lemma SearchStart(y: int, start: int, hm: int, hd: int, jahr: int, adarbehave: int, flag: int) returns (kept: int)
    requires FIRST_YEAR - 1 <= y && ValidMonthDay(hm, hd) && RoshHashana(y) <= start < RoshHashana(y + 1)
    requires 0 <= adarbehave <= 2 && flag == if adarbehave == ADAR2BOTH then ADAR2ADARA else adarbehave
    ensures Searching(y, flag, kept, start, Kept(hm, hd, jahr), adarbehave, hm == ADAR)
    ensures start < RoshHashana(5751) <==> y == 5750
    ensures kept <= y + 19
  {
    hide Observed, NewYear;
    var obs := Kept(hm, hd, jahr);
    kept := KeptWithin19(y + 1, hm, hd, jahr);
    NewYearsInOrder(y + 1, kept);
    forall f ensures obs(kept, f).Some? && start <= obs(kept, f).value {
      assert Observed(kept, hm, hd, jahr, f).Some?;
      ObservedInYear(kept, hm, hd, jahr, f);
    }
    forall hy, f | hy < y
      ensures obs(hy, f).Some? ==> obs(hy, f).value < start
    {
      TooEarly(hy, y, start, hm, hd, jahr, f);
    }
    KeptOrdered(hm, hd, jahr);
    if y > 5750 {
      NewYearsInOrder(5751, y);
    }
  }

  lemma KeptIsObserved(hy: int, hm: int, hd: int, jahr: int, flag: int)
    requires EPOCH_YEAR <= hy && ValidMonthDay(hm, hd)
    ensures Kept(hm, hd, jahr)(hy, flag) == Observed(hy, hm, hd, jahr, flag)
  {
  }

  lemma TooEarly(hy: int, y: int, start: int, hm: int, hd: int, jahr: int, f: int)
    requires EPOCH_YEAR <= y && hy < y && ValidMonthDay(hm, hd) && RoshHashana(y) <= start
    ensures var o := Kept(hm, hd, jahr)(hy, f); o.Some? ==> o.value < start
  {
    hide Observed, NewYear;
    if EPOCH_YEAR <= hy {
      ObservedInYear(hy, hm, hd, jahr, f);
      NewYearsInOrder(hy + 1, y);
    }
  }

  /** Observances follow the order of years. */
  lemma KeptOrdered(hm: int, hd: int, jahr: int)
    requires ValidMonthDay(hm, hd)
    ensures Ordered(Kept(hm, hd, jahr))
    ensures hm != ADAR ==> FlagFree(Kept(hm, hd, jahr))
  {
    hide Observed, RoshHashana;
    var obs := Kept(hm, hd, jahr);
    forall y, z, f, g | y < z && obs(y, f).Some? && obs(z, g).Some?
      ensures obs(y, f).value < obs(z, g).value
    {
      ObservedInYear(y, hm, hd, jahr, f);
      ObservedInYear(z, hm, hd, jahr, g);
      NewYearsInOrder(y + 1, z);
    }
    forall y | obs(y, ADAR2ADARA).Some? && obs(y, ADAR2ADARB).Some?
      ensures obs(y, ADAR2ADARA).value <= obs(y, ADAR2ADARB).value
    {
      if hm == ADAR {
        AdarAFirst(y, hd, jahr);
      } else {
        FlagForAdar(y, hm, hd, jahr, ADAR2ADARA, ADAR2ADARB);
      }
    }
    forall y, f, g | hm != ADAR
      ensures obs(y, f) == obs(y, g)
    {
      if EPOCH_YEAR <= y {
        FlagForAdar(y, hm, hd, jahr, f, g);
      }
    }
  }

  /** The flag matters only for Adar. */
  lemma FlagForAdar(hy: int, hm: int, hd: int, jahr: int, f: int, g: int)
    requires EPOCH_YEAR <= hy && ValidMonthDay(hm, hd) && hm != ADAR
    ensures Observed(hy, hm, hd, jahr, f) == Observed(hy, hm, hd, jahr, g)
  {
  }

  lemma AfterEpoch(hy: int, hm: int, hd: int)
    requires FIRST_YEAR <= hy && ValidHeb(hy, hm, hd)
    ensures HebDay(hy, hm, hd) > 0
  {
    FirstNewYears();
    NewYearsInOrder(FIRST_YEAR, hy);
    HebDayInYear(hy, hm, hd);
  }

  lemma SameIn5750(hm: int, hd: int, jahr: int, flag: int)
    requires ValidMonthDay(hm, hd)
    ensures Observed(5750, hm, hd, jahr, flag) == Observed(5750, hm, hd, jahr, ADAR2ADARB)
  {
    FirstNewYears();
  }

  /** From a start in years 5751 to 9731 there always is an answer, in the same year or the next 19. */
  lemma AlwaysKept(start: int, y: int, hm: int, hd: int, jahr: int, adarbehave: int)
    requires FIRST_YEAR <= y <= LAST_YEAR - 19 && ValidMonthDay(hm, hd) && 0 <= adarbehave <= 2
    requires RoshHashana(y) <= start < RoshHashana(y + 1)
    ensures start >= RoshHashana(5751) && KeptBy(LAST_YEAR, start, Kept(hm, hd, jahr), adarbehave)
  {
    hide Observed, NewYear;
    NewYearsInOrder(5751, y);
    var k := KeptWithin19(y + 1, hm, hd, jahr);
    NewYearsInOrder(y + 1, k);
    var flag := if adarbehave == ADAR2ADARA then ADAR2ADARA else ADAR2ADARB;
    ObservedInYear(k, hm, hd, jahr, flag);
    assert IsFlag(flag, adarbehave) && Kept(hm, hd, jahr)(k, flag) == Observed(k, hm, hd, jahr, flag);
  }

  /**
   What the search misses in 5750: from 1 January 1990 on, 10 Tevet is kept on 7
   January, but the contract of GetNextHebrewDate answers E_DATE_OVER.
   */
  lemma TenthOfTevetMissed(jahr: int, adarbehave: int)
    requires 0 <= jahr <= 2 && 0 <= adarbehave <= 2
    ensures ValidMonthDay(TEVET, 10) && DateAt(6) == Date(1990, 0, 7) && 0 < RoshHashana(5751)
    ensures Observed(5750, TEVET, 10, jahr, ADAR2ADARB) == Some(6) && Observance(6, Kept(TEVET, 10, jahr), adarbehave)
  {
    hide NewYear, HebIsLeap, DaysBefore;
    FirstYear();
    MonthTable(355);
    var flag := if adarbehave == ADAR2ADARA then ADAR2ADARA else ADAR2ADARB;
    assert Observed(5750, TEVET, 10, jahr, flag) == Some(6);
    assert IsFlag(flag, adarbehave) && Kept(TEVET, 10, jahr)(5750, flag) == Some(6);
  }

  lemma FirstYear()
    ensures RoshHashana(5750) == -93 && YearLength(5750) == 355 && 0 < RoshHashana(5751)
  {
    assert LeapMonthsBefore(2006) == 739 && LeapMonthsBefore(2007) == 739;
    DivDay(Molad(2006), 732683, 16662);
    DivDay(Molad(2007), 733038, 258);
  }

  /** 30 Heshvan in 5784, which has none: 14 November 2023 under rule 1, and 13 November under rule 2. */
  lemma HeshvanOf5784(flag: int)
    ensures Observed(5784, HESHVAN, 30, JAHR_FORWARD, flag) == Some(DSE(2023, 10, 14))
    ensures Observed(5784, HESHVAN, 30, JAHR_BACKWARD, flag) == Some(DSE(2023, 10, 13))
  {
    assert LeapMonthsBefore(2040) == 751 && LeapMonthsBefore(2041) == 752;
    DivDay(Molad(2040), 745086, 12762);
    DivDay(Molad(2041), 745470, 10111);
    assert YearLength(5784) == 383 && RoshHashana(5784) == DSE(2023, 8, 16);
    MonthTable(383);
  }

  /**
   New years that are put off by nothing, by the day of the week, by the molad
   behind noon, and by each of the two rarer rules.
   */
  lemma KnownNewYears()
    ensures RoshHashana(5783) == DSE(2022, 8, 26) && RoshHashana(5753) == DSE(1992, 8, 28)
    ensures RoshHashana(5786) == DSE(2025, 8, 23) && RoshHashana(5789) == DSE(2028, 8, 21)
    ensures RoshHashana(5766) == DSE(2005, 9, 4)
  {
    hide RoshHashana, DSE;
    NewYearBy(2039, 751, 744732, 3246);
    NewYearBy(2009, 740, 733776, 7123);
    NewYearBy(2042, 752, 745824, 19627);
    NewYearBy(2045, 753, 746917, 10088);
    NewYearBy(2022, 745, 738530, 18156);
    NewYearDates();
  }

  lemma NewYearDates()
    ensures DSE(2022, 8, 26) == 11956 && DSE(1992, 8, 28) == 1001 && DSE(2025, 8, 23) == 13049
    ensures DSE(2028, 8, 21) == 14143 && DSE(2005, 9, 4) == 5755
  {
  }

  /** The new year by its molad, `leaps` being the leap months since the epoch. */
  lemma NewYearBy(y: nat, leaps: nat, day: nat, parts: nat)
    requires (12 * y + leaps) * 765433 + 1859 == day * 25920 + parts && parts < 25920
    requires leaps * 19 <= 7 * y + 1 < leaps * 19 + 19
    ensures RoshHashana(EPOCH_YEAR + y)
            == day - 2 - CORRECTION
               + Postponement(day % 7, parts, HebIsLeap(EPOCH_YEAR + y), HebIsLeap(EPOCH_YEAR + y + 18))
  {
    hide HebIsLeap, Postponement;
    assert LeapMonthsBefore(y) == leaps;
    DivDay(Molad(y), day, parts);
  }
}
