/**
 What an OMIT command is for (src/omit.c): the days it names are omitted from then
 on, and no others.  Days are named here by their dates, without codes and places
 in the year.
 */
module OmitLaws {
  import opened Gregorian
  import opened Omit

  /** The day is on or after the beginning, as far as that is given. */
  predicate FromOn(a: Spec, c: Date) {
    || (a.y != NONE && a.y < c.y)
    || ((a.y == NONE || a.y == c.y) && (a.m < c.m || (a.m == c.m && (a.d == NONE || a.d <= c.d))))
  }

  /** The day is on or before the end: a month without a day ends with its last. */
  predicate UpTo(b: Spec, c: Date) {
    || (b.y != NONE && c.y < b.y)
    || ((b.y == NONE || b.y == c.y) && (c.m < b.m || (c.m == b.m && (b.d == NONE || c.d <= b.d))))
  }

  /** The span of every year goes past its end. */
  predicate Wraps(a: Spec, b: Spec) {
    a.y == NONE && (b.m < a.m || (b.m == a.m && a.d != NONE && b.d != NONE && b.d < a.d))
  }

  predicate Named(c: Command, n: nat) {
    if c.wd != 0 then HasDay(c.wd, n % 7)
    else
      var a, b := c.first, if c.through then c.last else c.first;
      var date := DateAt(n);
      if Wraps(a, b) then FromOn(a, date) || UpTo(b, date) else FromOn(a, date) && UpTo(b, date)
  }

  /**
   If all goes well the days that are omitted are those that were and those that
   are named; otherwise nothing changes, unless it is for want of room.
   */
  lemma OmitsWhatIsNamed(c: Command, ctx: Context, localomit: bv8, n: nat)
    requires ParsedCommand(c) && |ctx.full| <= MAX_FULL_OMITS
    ensures var (ctx', r) := Applied(c, ctx);
            && (r == OK || r == E_PARSE_AS_REM ==>
                  (Omitted(ctx', localomit, n) <==> Omitted(ctx, localomit, n) || Named(c, n)))
            && (r != OK && r != E_PARSE_AS_REM && r != E_2MANY_FULL ==> ctx' == ctx)
  {
    hide HasDay, Span, Meant, ParsedCommand, DateAt, Code, Demanded, Granted, Cycle;
    DemandMeant(c);
    WeekdaysDemanded(c);
    if Demanded(c).Refused? {
      WhyRefused(c);
      GrantedNothing(Demanded(c), ctx);
    } else if c.wd != 0 {
      GrantedWeekdays(Demanded(c), ctx, localomit, n);
    } else {
      var a, b := Ends(c);
      if Demanded(c).Yearly? {
        YearlyNamed(c, a, b, n);
        GrantedYearly(Demanded(c), ctx, localomit, n);
      } else {
        DaysNamed(c, a, b, n);
        GrantedDays(Demanded(c), ctx, localomit, n);
      }
    }
  }

  lemma WhyRefused(c: Command)
    requires ParsedCommand(c) && Demanded(c).Refused?
    ensures Demanded(c).why in {E_PARSE_ERR, E_SPEC_MON, E_BAD_DATE}
  {
    hide DSE;
  }

  lemma GrantedNothing(d: Demand, ctx: Context)
    requires d.Refused?
    ensures Meant(d) && Granted(d, ctx) == (ctx, d.why)
  {
  }

  lemma GrantedWeekdays(d: Demand, ctx: Context, localomit: bv8, n: nat)
    requires d.Weekdays?
    ensures Meant(d)
    ensures var (ctx', r) := Granted(d, ctx);
            if r == OK then Omitted(ctx', localomit, n) <==> Omitted(ctx, localomit, n) || HasDay(d.wd, n % 7)
            else r == E_2MANY_LOCALOMIT && ctx' == ctx
  {
    hide HasDay, DateAt, Code;
    JoinedWeekdays(ctx.weekdays, d.wd, n % 7);
  }

  lemma GrantedYearly(d: Demand, ctx: Context, localomit: bv8, n: nat)
    requires d.Yearly? && Meant(d)
    ensures var (ctx', r) := Granted(d, ctx);
            var date := DateAt(n);
            && r == OK
            && (Omitted(ctx', localomit, n)
                <==> Omitted(ctx, localomit, n)
                     || Code(date.m, date.d) in Cycle(Ord(d.from), (Ord(d.to) - Ord(d.from)) % 366 + 1))
  {
    hide HasDay, DateAt, Code, Ord, Cycle;
  }

  lemma GrantedDays(d: Demand, ctx: Context, localomit: bv8, n: nat)
    requires d.Days? && |ctx.full| <= MAX_FULL_OMITS
    ensures Meant(d)
    ensures var (ctx', r) := Granted(d, ctx);
            && (r == OK || r == E_2MANY_FULL)
            && (r == OK ==>
                  (Omitted(ctx', localomit, n) <==> Omitted(ctx, localomit, n) || d.first <= n < d.last + 1))
  {
    hide HasDay, DateAt, Code, StoreDays;
    StoreDaysFits(ctx.full, d.first, d.last);
  }

  /** The first and the last day, with what is left out supplied. */
  lemma Ends(c: Command) returns (a: Spec, b: Spec)
    requires ParsedCommand(c) && c.wd == 0 && !Demanded(c).Refused?
    ensures !Demanded(c).Weekdays?
    ensures var first, last := c.first, if c.through then c.last else c.first;
            && a == first.(d := if first.d == NONE then 1 else first.d)
            && b == last.(d := if last.d == NONE then LastOfMonth(last.y, last.m) else last.d)
            && Complete(a) && Complete(b) && (a.y == NONE <==> b.y == NONE) && Demanded(c) == Span(a, b)
            && 1 <= a.d <= LastOfMonth(a.y, a.m) && 1 <= b.d <= LastOfMonth(b.y, b.m)
  {
    var first, last := c.first, if c.through then c.last else c.first;
    a := first.(d := if first.d == NONE then 1 else first.d);
    b := last.(d := if last.d == NONE then LastOfMonth(last.y, last.m) else last.d);
  }

  predicate InYear(m: int, d: int, c: Date) {
    m < c.m || (m == c.m && d <= c.d)
  }

  lemma PlaceOrder(m: int, d: int, c: Date)
    requires 0 <= m < 12 && 1 <= d <= MonthDays(m) && 0 <= c.m < 12 && 1 <= c.d <= MonthDays(c.m)
    ensures IsCode(Code(m, d)) && IsCode(Code(c.m, c.d)) && 0 <= Code(c.m, c.d) < 384
    ensures InYear(m, d, c) <==> Ord(Code(m, d)) <= Ord(Code(c.m, c.d))
    ensures (c.m < m || (c.m == m && c.d <= d)) <==> Ord(Code(c.m, c.d)) <= Ord(Code(m, d))
  {
    hide IsCode, Ord;
    CodeOf(m, d);
    CodeOf(c.m, c.d);
    OrdMonotone(Code(m, d), Code(c.m, c.d));
    OrdMonotone(Code(c.m, c.d), Code(m, d));
  }

  lemma YearlyNamed(c: Command, a: Spec, b: Spec, n: nat)
    requires ParsedCommand(c) && c.wd == 0 && Demanded(c).Yearly? && Complete(a) && Complete(b)
    requires var first, last := c.first, if c.through then c.last else c.first;
             && a == first.(d := if first.d == NONE then 1 else first.d)
             && b == last.(d := if last.d == NONE then LastOfMonth(last.y, last.m) else last.d)
    requires Demanded(c) == Span(a, b) && (a.y == NONE <==> b.y == NONE)
    requires 1 <= a.d <= LastOfMonth(a.y, a.m) && 1 <= b.d <= LastOfMonth(b.y, b.m)
    ensures var date, d := DateAt(n), Demanded(c);
            && IsCode(d.from) && IsCode(d.to)
            && (Code(date.m, date.d) in Cycle(Ord(d.from), (Ord(d.to) - Ord(d.from)) % 366 + 1) <==> Named(c, n))
  {
    hide IsCode, Ord, Code, DSE, Demanded, DateAt;
    var date := DateAt(n);
    YearlySpan(a, b);
    PlaceOrder(a.m, a.d, date);
    PlaceOrder(b.m, b.d, date);
    PlaceOrder(a.m, a.d, Date(0, b.m, b.d));
    var o0, o1, x := Ord(Code(a.m, a.d)), Ord(Code(b.m, b.d)), Ord(Code(date.m, date.d));
    assert (x - o0) % 366 < (o1 - o0) % 366 + 1 <==> if o0 <= o1 then o0 <= x <= o1 else o0 <= x || x <= o1;
  }

  lemma YearlySpan(a: Spec, b: Spec)
    requires Complete(a) && Complete(b) && (a.y == NONE <==> b.y == NONE) && Span(a, b).Yearly?
    ensures a.y == NONE && Span(a, b) == Yearly(Code(a.m, a.d), Code(b.m, b.d))
  {
  }

  lemma DaysNamed(c: Command, a: Spec, b: Spec, n: nat)
    requires ParsedCommand(c) && c.wd == 0 && Demanded(c).Days? && Complete(a) && Complete(b)
    requires var first, last := c.first, if c.through then c.last else c.first;
             && a == first.(d := if first.d == NONE then 1 else first.d)
             && b == last.(d := if last.d == NONE then LastOfMonth(last.y, last.m) else last.d)
    requires Demanded(c) == Span(a, b) && (a.y == NONE <==> b.y == NONE)
    requires 1 <= a.d <= LastOfMonth(a.y, a.m) && 1 <= b.d <= LastOfMonth(b.y, b.m)
    ensures Demanded(c).first <= n < Demanded(c).last + 1 <==> Named(c, n)
  {
    hide DSE, Demanded, DateAt, Code;
    var date := DateAt(n);
    DaysSpan(a, b);
    var first, last := Date(a.y, a.m, a.d), Date(b.y, b.m, b.d);
    DSEOfDateAt(n);
    DSEInverse(date, first);
    DSEInverse(last, date);
  }

  lemma DaysSpan(a: Spec, b: Spec)
    requires Complete(a) && Complete(b) && (a.y == NONE <==> b.y == NONE) && Span(a, b).Days?
    ensures a.y != NONE && Span(a, b) == Days(DSE(a.y, a.m, a.d), DSE(b.y, b.m, b.d))
  {
    hide DSE;
  }
}
