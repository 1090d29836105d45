/**
 The three users of the OMIT store that count days which are not omitted: slide
 and nonomitted (src/funcs.c), and the delta of a reminder (src/dorem.c).
 */
module Slide {
  import opened Gregorian
  import opened Omit

  /** How many of from, from + step, ..., below `to`, are not omitted. */
  ghost function NonOmitted(c: Context, localomit: bv8, from: nat, end: int, step: int): nat
    requires step >= 1
    decreases end - from
  {
    if from >= end then 0
    else (if Omitted(c, localomit, from) then 0 else 1) + NonOmitted(c, localomit, from + step, end, step)
  }

  /** `to` is reached from `from` in steps. */
  predicate OnGrid(from: int, end: int, step: int)
    requires step >= 1
    decreases end - from
  {
    from == end || (from < end && OnGrid(from + step, end, step))
  }

  lemma {:induction false} GridOn(from: int, end: int, step: int)
    requires step >= 1 && OnGrid(from, end, step)
    ensures from <= end && OnGrid(from, end + step, step)
    decreases end - from
  {
    if from < end {
      GridOn(from + step, end, step);
    }
  }

  /** Counting one day more. */
  lemma {:induction false} CountOn(c: Context, localomit: bv8, from: nat, end: int, step: int)
    requires step >= 1 && OnGrid(from, end, step) && end >= 0
    ensures NonOmitted(c, localomit, from, end + step, step)
            == NonOmitted(c, localomit, from, end, step) + (if Omitted(c, localomit, end) then 0 else 1)
    decreases end - from
  {
    hide Omitted;
    if from < end {
      GridOn(from + step, end, step);
      CountOn(c, localomit, from + step, end, step);
    }
  }

  lemma {:induction false} CountSplit(c: Context, localomit: bv8, from: nat, mid: int, end: int, step: int)
    requires step >= 1 && OnGrid(from, mid, step) && mid <= end
    ensures mid >= 0 && NonOmitted(c, localomit, from, end, step)
            == NonOmitted(c, localomit, from, mid, step) + NonOmitted(c, localomit, mid, end, step)
    decreases mid - from
  {
    hide Omitted;
    if from < mid {
      CountSplit(c, localomit, from + step, mid, end, step);
    }
  }

  datatype Result = Value(v: int) | E_2HIGH | E_2LOW | E_2MANY_LOCALOMIT | E_DATE_OVER

  /** `landing` is where `n` steps over days that are not omitted lead, forward from `d`. */
  ghost predicate Lands(c: Context, localomit: bv8, d: nat, n: nat, step: int, landing: nat)
    requires step >= 1
  {
    && OnGrid(d + step, landing, step) && !Omitted(c, localomit, landing)
    && NonOmitted(c, localomit, d + step, landing + step, step) == n
  }

  /** The same, backward. */
  ghost predicate LandsBack(c: Context, localomit: bv8, d: nat, n: nat, step: int, landing: nat)
    requires step >= 1
  {
    && OnGrid(landing, d - step, step) && !Omitted(c, localomit, landing)
    && NonOmitted(c, localomit, landing, d, step) == n
  }

  /** There is only one landing. */
  lemma LandsOnce(c: Context, localomit: bv8, d: nat, n: nat, step: int, a: nat, b: nat)
    requires step >= 1 && Lands(c, localomit, d, n, step, a) && Lands(c, localomit, d, n, step, b)
    ensures a == b
  {
    hide Omitted;
    if a < b {
      LandingsDiffer(c, localomit, d, step, a, b);
    } else if b < a {
      LandingsDiffer(c, localomit, d, step, b, a);
    }
  }

  lemma LandingsDiffer(c: Context, localomit: bv8, d: nat, step: int, a: nat, b: nat)
    requires step >= 1 && a < b && OnGrid(d + step, a, step) && OnGrid(d + step, b, step) && !Omitted(c, localomit, b)
    ensures NonOmitted(c, localomit, d + step, a + step, step) < NonOmitted(c, localomit, d + step, b + step, step)
  {
    hide Omitted;
    GridOn(d + step, a, step);
    GridBetween(d + step, a, b, step);
    CountOn(c, localomit, d + step, b, step);
    CountSplit(c, localomit, d + step, a + step, b, step);
  }

  lemma {:induction false} GridBetween(from: int, a: int, b: int, step: int)
    requires step >= 1 && OnGrid(from, a, step) && OnGrid(from, b, step) && a < b
    ensures a + step <= b && OnGrid(a + step, b, step)
    decreases a - from
  {
    if from < a {
      GridBetween(from + step, a, b, step);
    } else {
      GridUp(from + step, b, step);
    }
  }

  lemma GridUp(from: int, end: int, step: int)
    requires step >= 1 && OnGrid(from, end, step)
    ensures from <= end
  {
  }

  /** Going back there is only one landing, too. */
  lemma LandsBackOnce(c: Context, localomit: bv8, d: nat, n: nat, step: int, a: nat, b: nat)
    requires step >= 1 && LandsBack(c, localomit, d, n, step, a) && LandsBack(c, localomit, d, n, step, b)
    ensures a == b
  {
    hide Omitted;
    if a < b {
      BackLandingsDiffer(c, localomit, d, step, a, b);
    } else if b < a {
      BackLandingsDiffer(c, localomit, d, step, b, a);
    }
  }

  lemma BackLandingsDiffer(c: Context, localomit: bv8, d: nat, step: int, a: nat, b: nat)
    requires step >= 1 && a < b && OnGrid(a, d - step, step) && OnGrid(b, d - step, step) && !Omitted(c, localomit, a)
    ensures NonOmitted(c, localomit, a, d, step) > NonOmitted(c, localomit, b, d, step)
  {
    hide Omitted;
    GridCommon(a, b, d - step, step);
    GridUp(b, d - step, step);
    CountSplit(c, localomit, a, b, d, step);
  }

  /** Of two days from which the same day is reached, the later is reached from the earlier. */
  lemma {:induction false} GridCommon(a: int, b: int, end: int, step: int)
    requires step >= 1 && OnGrid(a, end, step) && OnGrid(b, end, step) && a <= b
    ensures OnGrid(a, b, step)
    decreases end - b
  {
    if b < end {
      GridCommon(a + step, b + step, end, step);
      GridShift(a + step, b + step, step);
    } else {
      GridUp(b, end, step);
    }
  }

  /** From a day that is not omitted, sliding forward and then back by as much leads home, and nowhere else. */
  lemma SlideBack(c: Context, localomit: bv8, d: nat, n: nat, step: int, landing: nat)
    requires step >= 1 && n > 0 && !Omitted(c, localomit, d) && Lands(c, localomit, d, n, step, landing)
    ensures LandsBack(c, localomit, landing, n, step, d)
    ensures forall b: nat | LandsBack(c, localomit, landing, n, step, b) :: b == d
  {
    hide Omitted, LandsBack;
    HomeIsBack(c, localomit, d, n, step, landing);
    forall b: nat | LandsBack(c, localomit, landing, n, step, b)
      ensures b == d
    {
      LandsBackOnce(c, localomit, landing, n, step, b, d);
    }
  }

  lemma HomeIsBack(c: Context, localomit: bv8, d: nat, n: nat, step: int, landing: nat)
    requires step >= 1 && n > 0 && !Omitted(c, localomit, d) && Lands(c, localomit, d, n, step, landing)
    ensures LandsBack(c, localomit, landing, n, step, d)
  {
    hide Omitted;
    GridUp(d + step, landing, step);
    CountOn(c, localomit, d + step, landing, step);
    GridShift(d + step, landing, step);
  }

  lemma {:induction false} GridShift(from: int, end: int, step: int)
    requires step >= 1 && OnGrid(from, end, step)
    ensures OnGrid(from - step, end - step, step)
    decreases end - from
  {
    if from < end {
      GridShift(from + step, end, step);
    }
  }

  /** There are at least `n` days ahead that are not omitted. */
  ghost predicate DaysAhead(c: Context, localomit: bv8, d: nat, n: int, step: int)
    requires step >= 1
  {
    exists far: int {:trigger NonOmitted(c, localomit, d + step, far, step)} ::
        NonOmitted(c, localomit, d + step, far, step) >= n
  }

  /** First day of the grid that leads to `d`. */
  function Lowest(d: nat, step: int): nat
    requires step >= 1
  {
    if d < step then d else Lowest(d - step, step)
  }

  /**
   slide(d, amt, step, ...).  The forward loop of the original runs until it has
   found enough days.  Where seven omitted weekdays do not stop it at once, that
   there are any to find is asked of the caller; see ForwardEnds.
   */
  method FSlide(store: OmitStore, d0: nat, amt0: int, step: int, localomit: bv8) returns (r: Result)
    requires store.Valid()
    requires 0 < amt0 <= 1000000 && step >= 1 && store.weekdayOmits | localomit != 0x7f ==>
               SomeStepFree(store.View(), localomit, d0, step)
    ensures r == E_2HIGH <==> amt0 > 1000000
    ensures r == E_2LOW <==> amt0 <= 1000000 && (amt0 < -1000000 || step < 1)
    ensures r == Result.E_2MANY_LOCALOMIT <==>
              -1000000 <= amt0 <= 1000000 && step >= 1 && amt0 != 0 && store.weekdayOmits | localomit == 0x7f
    ensures r == E_DATE_OVER ==> step >= 1 && amt0 < 0
    ensures step >= 1 && amt0 < 0 && (r == E_DATE_OVER || r.Value?) ==>
              (r == E_DATE_OVER <==> NonOmitted(store.View(), localomit, Lowest(d0, step), d0, step) < -amt0)
    ensures r.Value? && amt0 == 0 ==> r.v == d0
    ensures r.Value? && amt0 > 0 ==> step >= 1 && r.v >= 0 && Lands(store.View(), localomit, d0, amt0, step, r.v)
    ensures r.Value? && amt0 < 0 ==> step >= 1 && r.v >= 0 && LandsBack(store.View(), localomit, d0, -amt0, step, r.v)
  {
    hide Omitted, SomeStepFree, DaysAhead, Lands, LandsBack, OmitStore.Valid;
    if amt0 > 1000000 {
      return E_2HIGH;
    }
    if amt0 < -1000000 {
      return E_2LOW;
    }
    if step < 1 {
      return E_2LOW;
    }
    if store.weekdayOmits | localomit == 0x7f && amt0 != 0 {
      return Result.E_2MANY_LOCALOMIT;
    }
    if amt0 > 0 {
      ForwardEnds(store.View(), localomit, d0, amt0, step);
      var d := SlideForward(store, d0, amt0, step, localomit);
      return Value(d);
    } else {
      var d := SlideBackward(store, d0, amt0, step, localomit);
      return if d < 0 then E_DATE_OVER else Value(d);
    }
  }

  method SlideForward(store: OmitStore, d0: nat, amt0: int, step: int, localomit: bv8) returns (d: nat)
    requires store.Valid() && amt0 > 0 && step >= 1 && DaysAhead(store.View(), localomit, d0, amt0, step)
    ensures Lands(store.View(), localomit, d0, amt0, step, d)
  {
    hide Omitted, OmitStore.Valid, OmitStore.View;
    ghost var c := store.View();
    ghost var far :| NonOmitted(c, localomit, d0 + step, far, step) >= amt0;
    d := d0;
    var amt := amt0;
    while amt != 0
      invariant 0 <= amt <= amt0 && NonOmitted(c, localomit, d + step, far, step) >= amt
      invariant amt < amt0 ==> OnGrid(d0 + step, d, step)
      invariant OnGrid(d0 + step, d + step, step)
      invariant NonOmitted(c, localomit, d0 + step, d + step, step) == amt0 - amt
      invariant amt == 0 ==> !Omitted(c, localomit, d)
      decreases far - d
    {
      d := d + step;
      GridOn(d0 + step, d, step);
      CountOn(c, localomit, d0 + step, d, step);
      var answer := store.IsOmitted(d, localomit, NoFunc);
      if !answer.omit {
        amt := amt - 1;
      }
    }
  }

  method SlideBackward(store: OmitStore, d0: nat, amt0: int, step: int, localomit: bv8) returns (d: int)
    requires store.Valid() && amt0 <= 0 && step >= 1
    ensures d < 0 ==> amt0 < 0
    ensures d < 0 <==> NonOmitted(store.View(), localomit, Lowest(d0, step), d0, step) < -amt0
    ensures d >= 0 ==> if amt0 == 0 then d == d0 else LandsBack(store.View(), localomit, d0, -amt0, step, d)
  {
    hide Omitted, OmitStore.Valid, OmitStore.View;
    ghost var c := store.View();
    d := d0;
    var amt := amt0;
    while amt != 0
      invariant amt0 <= amt <= 0 && 0 <= d <= d0
      invariant amt0 == 0 ==> d == d0
      invariant (amt == amt0 && d == d0) || OnGrid(d, d0 - step, step)
      invariant NonOmitted(c, localomit, d, d0, step) == amt - amt0
      invariant Lowest(d, step) == Lowest(d0, step)
      invariant amt == 0 && amt0 < 0 ==> !Omitted(c, localomit, d)
      decreases d
    {
      d := d - step;
      if d < 0 {
        return d;
      }
      GridBack(d, d0 - step, step);
      var answer := store.IsOmitted(d, localomit, NoFunc);
      if !answer.omit {
        amt := amt + 1;
      }
    }
    FromLowest(c, localomit, d, d0, step);
  }

  lemma {:induction false} FromLowest(c: Context, localomit: bv8, d: nat, d0: nat, step: int)
    requires step >= 1 && d <= d0
    ensures NonOmitted(c, localomit, Lowest(d, step), d0, step) >= NonOmitted(c, localomit, d, d0, step)
    decreases d
  {
    hide Omitted;
    if d >= step {
      FromLowest(c, localomit, d - step, d0, step);
    }
  }

  lemma GridBack(d: int, end: int, step: int)
    requires step >= 1 && (d == end || OnGrid(d + step, end, step))
    ensures OnGrid(d, end, step)
  {
    if d != end {
      GridUp(d + step, end, step);
    }
  }

  /** nonomitted(d1, d2, step, ...), in either order of the dates. */
  method FNonomitted(store: OmitStore, d1: nat, d2: nat, step: int, localomit: bv8) returns (r: Result)
    requires store.Valid()
    ensures step < 1 ==> r == E_2LOW
    ensures step >= 1 ==>
              var (from, end) := if d1 < d2 then (d1, d2) else (d2, d1);
              r == Value(NonOmitted(store.View(), localomit, from, end, step))
  {
    hide Omitted, OmitStore.Valid, OmitStore.View;
    var from, end := d1, d2;
    if end < from {
      from, end := end, from;
    }
    if step < 1 {
      return E_2LOW;
    }
    ghost var c := store.View();
    ghost var all := NonOmitted(c, localomit, from, end, step);
    var ans := 0;
    while from < end
      invariant ans + NonOmitted(c, localomit, from, end, step) == all
      decreases end - from
    {
      var answer := store.IsOmitted(from, localomit, NoFunc);
      if !answer.omit {
        ans := ans + 1;
      }
      from := from + step;
    }
    return Value(ans);
  }

  /** As many rounds as the loop over the delta may take. */
  function MaxRounds(maxSatIter: int, delta: int): int {
    if maxSatIter < delta * 2 then delta * 2 else maxSatIter
  }

  /**
   The part of ShouldTriggerReminder for a reminder with no ONCE, TODO, AT or WARN
   clause: a delta that skips omitted days is counted back from the date.
   */
  method ShouldTriggerReminder(store: OmitStore, dse0: nat, today: nat, delta: int, localomit: bv8,
                               infiniteDelta: bool, deltaOverride: int, maxSatIter: int)
    returns (trigger: bool, canTrig: bool)
    requires store.Valid() && maxSatIter >= 10
    ensures dse0 < today ==> !trigger && canTrig
    ensures dse0 == today ==> trigger && canTrig
    ensures dse0 > today && infiniteDelta ==> trigger && canTrig
    ensures dse0 > today && !infiniteDelta && deltaOverride < 0 ==> !trigger && canTrig
    ensures dse0 > today && !infiniteDelta && deltaOverride > 0 ==>
            canTrig && (trigger <==> dse0 - deltaOverride <= today)
    ensures dse0 > today && !infiniteDelta && deltaOverride == 0 && delta <= 0 ==>
              canTrig && (trigger <==> dse0 + delta <= today)
    ensures dse0 > today && !infiniteDelta && deltaOverride == 0 && delta > 0 ==>
              && (canTrig <==> !RoundsRunOut(store.View(), localomit, dse0, today, delta, maxSatIter))
              && (trigger <==> canTrig && NonOmitted(store.View(), localomit, today + 1, dse0, 1) < delta)
  {
    hide Omitted, OmitStore.Valid, OmitStore.View;
    if dse0 < today {
      return false, true;
    }
    if infiniteDelta {
      return true, true;
    }
    if deltaOverride < 0 {
      return dse0 == today, true;
    }
    if deltaOverride != 0 {
      return dse0 - deltaOverride <= today, true;
    }
    if delta <= 0 {
      return dse0 + delta <= today, true;
    }
    trigger, canTrig := CountBack(store, dse0, today, delta, localomit, maxSatIter);
  }

  /** The last round is over, and neither today nor the end of the delta has been reached. */
  ghost predicate RoundsRunOut(c: Context, localomit: bv8, date: nat, today: nat, delta: int, maxSatIter: int)
    requires date > today
  {
    var max := MaxRounds(maxSatIter, delta);
    date - today >= max && NonOmitted(c, localomit, date - max + 1, date, 1) < delta
  }

  method CountBack(store: OmitStore, dse0: nat, today: nat, delta: int, localomit: bv8, maxSatIter: int)
    returns (trigger: bool, canTrig: bool)
    requires store.Valid() && maxSatIter >= 10 && dse0 >= today && delta > 0
    ensures dse0 == today ==> trigger && canTrig
    ensures dse0 > today ==>
              && (canTrig <==> !RoundsRunOut(store.View(), localomit, dse0, today, delta, maxSatIter))
              && (trigger <==> canTrig && NonOmitted(store.View(), localomit, today + 1, dse0, 1) < delta)
  {
    hide Omitted, OmitStore.Valid, OmitStore.View;
    ghost var c := store.View();
    var dse := dse0;
    var iter, max, r := 0, maxSatIter, delta;
    if max < r * 2 {
      max := r * 2;
    }
    while iter < max
      invariant 0 <= iter <= max && max == MaxRounds(maxSatIter, delta)
      invariant dse == dse0 - iter && dse >= today && r >= 0
      invariant r + NonOmitted(c, localomit, dse, dse0, 1) == delta
      invariant NonOmitted(c, localomit, dse + 1, dse0, 1) < delta
    {
      iter := iter + 1;
      if r == 0 || dse <= today {
        if r == 0 && dse > today {
          LaterDays(c, localomit, today + 1, dse, dse0);
          if dse0 - today >= max {
            LaterDays(c, localomit, dse0 - max + 1, dse, dse0);
          }
        }
        return dse <= today, true;
      }
      dse := dse - 1;
      var answer := store.IsOmitted(dse, localomit, NoFunc);
      if !answer.omit {
        r := r - 1;
      }
    }
    return false, false;
  }

  lemma {:induction false} LaterDays(c: Context, localomit: bv8, from: nat, mid: nat, end: int)
    requires from <= mid
    ensures NonOmitted(c, localomit, from, end, 1) >= NonOmitted(c, localomit, mid, end, 1)
    decreases mid - from
  {
    hide Omitted;
    if from < mid {
      LaterDays(c, localomit, from + 1, mid, end);
    }
  }

  /**
   Slides and deltas count the same days: the date that is n days which are not
   omitted after today is within the delta exactly when n is.
   */
  lemma SlideMeetsDelta(c: Context, localomit: bv8, today: nat, n: nat, date: nat, delta: int)
    requires Lands(c, localomit, today, n, 1, date)
    ensures NonOmitted(c, localomit, today + 1, date, 1) < delta <==> n <= delta
  {
    hide Omitted;
    GridUp(today + 1, date, 1);
    CountOn(c, localomit, today + 1, date, 1);
  }

  /** Rounds can run out before the delta does: ten omitted days and MaxSatIter at its least. */
  lemma RoundsCanRunOut(c: Context, today: nat)
    requires forall d: nat | today < d <= today + 10 :: d in c.full
    ensures RoundsRunOut(c, 0, today + 11, today, 1, 10)
    ensures NonOmitted(c, 0, today + 1, today + 11, 1) < 1
  {
    AllOmitted(c, 0, today + 1, today + 11, 1);
    LaterDays(c, 0, today + 1, today + 2, today + 11);
  }

  lemma {:induction false} AllOmitted(c: Context, localomit: bv8, from: nat, end: int, step: int)
    requires step >= 1 && forall d: nat | from <= d < end && OnGrid(from, d, step) :: Omitted(c, localomit, d)
    ensures NonOmitted(c, localomit, from, end, step) == 0
    decreases end - from
  {
    hide Omitted;
    if from < end {
      forall d: nat | from + step <= d < end && OnGrid(from + step, d, step)
        ensures Omitted(c, localomit, d)
      {
        assert OnGrid(from, d, step);
      }
      assert OnGrid(from, from, step);
      AllOmitted(c, localomit, from + step, end, step);
    }
  }

  // ----- Which slides come to an end -----

  /** The omissions that come back: the calendar repeats every 400 years, which are whole weeks. */
  ghost function Recurring(c: Context): Context {
    c.(full := {})
  }

  lemma CalendarRepeats(n: nat)
    ensures DateAt(n + 146097) == DateAt(n).(y := DateAt(n).y + 400)
  {
    var a := DateAt(n);
    var b := a.(y := a.y + 400);
    DayNumberOfDateAt(n);
    FourCenturies(a.y);
    DateAtDayNumber(b);
  }

  lemma FourCenturies(y: int)
    requires BASE <= y
    ensures DaysToYear(y + 400) == DaysToYear(y) + 146097 && IsLeapYear(y + 400) == IsLeapYear(y)
  {
    YearFormula(y);
    YearFormula(y + 400);
    var q, r := y / 400, y % 400;
    assert (y + 399) / 4 == (y - 1) / 4 + 100 && (y + 399) / 100 == (y - 1) / 100 + 4 &&
        (y + 399) / 400 == (y - 1) / 400 + 1;
    assert (y + 400) % 4 == y % 4 && (y + 400) % 100 == y % 100 && (y + 400) % 400 == y % 400;
  }

  lemma {:induction false} OmissionsRepeat(c: Context, localomit: bv8, dse: nat, s: nat)
    ensures Omitted(Recurring(c), localomit, dse) <==> Omitted(Recurring(c), localomit, dse + 146097 * s)
  {
    if s > 0 {
      OmissionsRepeat(c, localomit, dse, s - 1);
      var n := dse + 146097 * (s - 1);
      CalendarRepeats(n);
      assert (n + 146097) % 7 == n % 7;
    }
  }

  function At(d: int, step: int, k: int): int {
    d + k * step
  }

  lemma AtShift(d: int, step: int, k: int, t: int)
    ensures At(d, step, k + 146097 * t) == At(d, step, k) + 146097 * (t * step)
    ensures At(d, step, k + 1) == At(d, step, k) + step
  {
  }

  lemma {:induction false} AtOnGrid(d: int, step: int, k: int)
    requires step >= 1 && k >= 1
    ensures OnGrid(d + step, At(d, step, k), step)
    decreases k
  {
    hide OnGrid;
    AtShift(d, step, k - 1, 0);
    if k > 1 {
      AtOnGrid(d, step, k - 1);
      GridOn(d + step, At(d, step, k - 1), step);
    } else {
      GridStart(d + step, step);
    }
  }

  lemma GridStart(from: int, step: int)
    requires step >= 1
    ensures OnGrid(from, from, step)
  {
  }

  lemma {:induction false} GridAt(d: int, step: int, x: int) returns (k: int)
    requires step >= 1 && OnGrid(d + step, x, step)
    ensures k >= 1 && x == At(d, step, k)
    decreases x - d
  {
    if x == d + step {
      k := 1;
    } else {
      k := GridAt(d + step, step, x);
      k := k + 1;
    }
  }

  /** Somewhere in the next 146097 steps there is a day that no recurring omission covers. */
  ghost predicate SomeStepFree(c: Context, localomit: bv8, d: nat, step: int)
    requires step >= 1
  {
    exists k {:trigger At(d, step, k)} :: 1 <= k <= 146097 && At(d, step, k) >= 0
      && !Omitted(Recurring(c), localomit, At(d, step, k))
  }

  lemma {:induction false} Above(full: set<int>) returns (m: nat)
    ensures forall x | x in full :: x < m
  {
    if x :| x in full {
      var m' := Above(full - {x});
      m := if m' <= x then x + 1 else m';
      forall y | y in full ensures y < m {
        assert y == x || y in full - {x};
      }
    } else {
      m := 0;
    }
  }

  lemma DayAhead(c: Context, localomit: bv8, d: nat, step: int, from: int) returns (q: nat)
    requires step >= 1 && SomeStepFree(c, localomit, d, step)
    ensures q >= from && OnGrid(d + step, q, step) && !Omitted(c, localomit, q)
  {
    hide OnGrid, Omitted;
    var k :| 1 <= k <= 146097 && At(d, step, k) >= 0 && !Omitted(Recurring(c), localomit, At(d, step, k));
    var m := Above(c.full);
    var t := if from > m then from else m;
    AtShift(d, step, k, t);
    OmissionsRepeat(c, localomit, At(d, step, k), t * step);
    q := At(d, step, k + 146097 * t);
    Grows(t, step);
    AtOnGrid(d, step, k + 146097 * t);
    NoFullOmit(c, localomit, q);
  }

  lemma Grows(t: nat, step: int)
    requires step >= 1
    ensures t * step >= t
  {
  }

  lemma NoFullOmit(c: Context, localomit: bv8, q: nat)
    requires q !in c.full
    ensures Omitted(c, localomit, q) <==> Omitted(Recurring(c), localomit, q)
  {
  }

  lemma {:induction false} EnoughAhead(c: Context, localomit: bv8, d: nat, step: int, n: nat) returns (q: nat)
    requires step >= 1 && n >= 1 && SomeStepFree(c, localomit, d, step)
    ensures OnGrid(d + step, q, step) && NonOmitted(c, localomit, d + step, q + step, step) >= n
  {
    hide Omitted, OnGrid, SomeStepFree, NonOmitted;
    if n == 1 {
      q := DayAhead(c, localomit, d, step, 0);
      CountOn(c, localomit, d + step, q, step);
    } else {
      var p := EnoughAhead(c, localomit, d, step, n - 1);
      q := DayAhead(c, localomit, d, step, p + 1);
      LandingsDiffer(c, localomit, d, step, p, q);
    }
  }

  lemma NoneAhead(c: Context, localomit: bv8, d: nat, step: int, end: int)
    requires step >= 1 && !SomeStepFree(c, localomit, d, step)
    ensures NonOmitted(c, localomit, d + step, end, step) == 0
  {
    hide NonOmitted, OnGrid;
    forall x: nat | d + step <= x < end && OnGrid(d + step, x, step)
      ensures Omitted(c, localomit, x)
    {
      var k := GridAt(d, step, x);
      var t := (k - 1) / 146097;
      var k0 := k - 146097 * t;
      AtShift(d, step, k0, t);
      AtOnGrid(d, step, k0);
      GridUp(d + step, At(d, step, k0), step);
      Grows(t, step);
      OmissionsRepeat(c, localomit, At(d, step, k0), t * step);
    }
    AllOmitted(c, localomit, d + step, end, step);
  }

  /** The forward loop of slide ends, whatever the amount, exactly if one of the next 146097 steps is free. */
  lemma ForwardEnds(c: Context, localomit: bv8, d: nat, n: nat, step: int)
    requires step >= 1 && n >= 1
    ensures DaysAhead(c, localomit, d, n, step) <==> SomeStepFree(c, localomit, d, step)
  {
    hide Omitted, OnGrid, SomeStepFree, NonOmitted;
    if SomeStepFree(c, localomit, d, step) {
      var _ := EnoughAhead(c, localomit, d, step, n);
    } else {
      forall far: int {:trigger NonOmitted(c, localomit, d + step, far, step)}
        ensures NonOmitted(c, localomit, d + step, far, step) == 0
      {
        NoneAhead(c, localomit, d, step, far);
      }
    }
  }

  /** With all seven weekdays omitted no step is free, so stopping at once loses no slide. */
  lemma AllWeekdaysOmitted(c: Context, localomit: bv8, d: nat, step: int)
    requires step >= 1 && c.weekdays | localomit == 0x7f
    ensures !SomeStepFree(c, localomit, d, step)
  {
    forall k | 1 <= k && At(d, step, k) >= 0
      ensures Omitted(Recurring(c), localomit, At(d, step, k))
    {
      FreeWeekday(0x7f);
      JoinedWeekdays(c.weekdays, localomit, At(d, step, k) % 7);
    }
  }

  /** Where nothing but weekdays is omitted, and steps are not of whole weeks, the check of the original is exact. */
  lemma CheckIsExact(c: Context, localomit: bv8, d: nat, step: int)
    requires step >= 1 && step % 7 != 0 && c.partial == {} && c.weekdays < 0x80 && localomit < 0x80
    ensures SomeStepFree(c, localomit, d, step) <==> c.weekdays | localomit != 0x7f
  {
    hide HasDay, DateAt;
    if c.weekdays | localomit == 0x7f {
      AllWeekdaysOmitted(c, localomit, d, step);
    } else {
      OrBelow(c.weekdays, localomit);
      FreeWeekday(c.weekdays | localomit);
      var n :| 0 <= n < 7 && !HasDay(c.weekdays | localomit, n);
      JoinedWeekdays(c.weekdays, localomit, n);
      var k := StepTo(d, step, n);
      assert !Omitted(Recurring(c), localomit, At(d, step, k));
    }
  }

  /** Weekday `w` and `r` days more. */
  function Later(w: int, r: int): int {
    if w + r < 7 then w + r else w + r - 7
  }

  lemma LaterWeekday(x: int, step: int)
    ensures (x + step) % 7 == Later(x % 7, step % 7)
  {
  }

  /** Steps that are not of whole weeks meet every weekday within a week. */
  lemma StepTo(d: nat, step: int, n: int) returns (k: int)
    requires step >= 1 && step % 7 != 0 && 0 <= n < 7
    ensures 1 <= k <= 7 && At(d, step, k) >= 0 && At(d, step, k) % 7 == n
  {
    hide Later;
    var r, w := step % 7, d % 7;
    AllWeekdays(w, r, n);
    k := 1;
    LaterWeekday(d, step);
    while At(d, step, k) % 7 != n
      invariant 1 <= k <= 7 && At(d, step, k) >= 0 && At(d, step, k) % 7 == LaterBy(w, r, k)
      invariant forall j | 1 <= j < k :: LaterBy(w, r, j) != n
      decreases 7 - k
    {
      LaterWeekday(At(d, step, k), step);
      AtShift(d, step, k, 0);
      k := k + 1;
    }
  }

  function LaterBy(w: int, r: int, k: nat): int {
    if k == 0 then w else Later(LaterBy(w, r, k - 1), r)
  }

  lemma AllWeekdays(w: int, r: int, n: int)
    requires 0 <= w < 7 && 0 < r < 7 && 0 <= n < 7
    ensures exists k {:trigger LaterBy(w, r, k)} :: 1 <= k <= 7 && LaterBy(w, r, k) == n
  {
    hide Later;
    var a, b, c := LaterBy(w, r, 1), LaterBy(w, r, 2), LaterBy(w, r, 3);
    var d, e, f, g := LaterBy(w, r, 4), LaterBy(w, r, 5), LaterBy(w, r, 6), LaterBy(w, r, 7);
    SevenDays(w, r, n, a, b, c, d, e, f, g);
  }

  lemma SevenDays(w: int, r: int, n: int, a: int, b: int, c: int, d: int, e: int, f: int, g: int)
    requires 0 <= w < 7 && 0 < r < 7 && 0 <= n < 7
    requires a == Later(w, r) && b == Later(a, r) && c == Later(b, r) && d == Later(c, r)
    requires e == Later(d, r) && f == Later(e, r) && g == Later(f, r)
    ensures n in {a, b, c, d, e, f, g}
  {
  }

  /** The check for seven omitted weekdays lets a slide pass that never ends: Mondays omitted, in steps of a week. */
  lemma MondaysForever(c: Context, d: nat)
    requires d % 7 == 0 && c.weekdays == 0
    ensures c.weekdays | 1 != 0x7f && !SomeStepFree(c, 1, d, 7) && !DaysAhead(c, 1, d, 1, 7)
  {
    hide NonOmitted;
    forall k | 1 <= k
      ensures Omitted(Recurring(c), 1, At(d, 7, k))
    {
      assert At(d, 7, k) % 7 == 0;
    }
    forall far: int {:trigger NonOmitted(c, 1, d + 7, far, 7)}
      ensures NonOmitted(c, 1, d + 7, far, 7) == 0
    {
      NoneAhead(c, 1, d, 7, far);
    }
  }
}
