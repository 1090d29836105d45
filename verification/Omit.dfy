/**
 Sorted integer arrays searched by bisection (src/omit.c).
 */
module SortedArrays {

  ghost predicate Sorted(s: seq<int>) {
    forall i, j | 0 <= i < j < |s| :: s[i] < s[j]
  }

  ghost function Elems(s: seq<int>): set<int> {
    set x | x in s
  }

  method BexistsIntArray(a: array<int>, num: int, key: int) returns (found: bool)
    requires 0 <= num <= a.Length && Sorted(a[..num])
    ensures found <==> key in a[..num]
  {
    var top, bot := num - 1, 0;
    while top >= bot
      invariant 0 <= bot && -1 <= top < num && bot <= top + 1
      invariant forall k | 0 <= k < num && !(bot <= k <= top) :: a[k] != key
      decreases top - bot
    {
      var mid := (top + bot) / 2;
      assert a[..num][mid] == a[mid];
      assert forall k | 0 <= k < num :: a[..num][k] == a[k];
      if a[mid] == key {
        return true;
      } else if a[mid] > key {
        top := mid - 1;
      } else {
        bot := mid + 1;
      }
    }
    return false;
  }

  ghost function Inserted(s: seq<int>, pos: nat, key: int): seq<int>
    requires pos <= |s|
  {
    s[..pos] + [key] + s[pos..]
  }

  /** Shift the larger elements up by one place and put `key` into the gap. */
  method InsertIntoSortedArray(a: array<int>, num: int, key: int) returns (ghost pos: nat)
    requires 0 <= num < a.Length && Sorted(a[..num]) && key !in a[..num]
    modifies a
    ensures pos <= num && a[..num + 1] == Inserted(old(a[..num]), pos, key)
    ensures Sorted(a[..num + 1]) && a[num + 1..] == old(a[num + 1..])
  {
    ghost var s := a[..num];
    var cur := num;
    while cur > 0 && a[cur - 1] > key
      invariant 0 <= cur <= num
      invariant forall k | 0 <= k < cur :: a[k] == s[k]
      invariant forall k | cur < k <= num :: a[k] == s[k - 1] > key
      invariant a[num + 1..] == old(a[num + 1..])
    {
      a[cur] := a[cur - 1];
      cur := cur - 1;
    }
    a[cur] := key;
    pos := cur;
    assert pos < num ==> s[pos] > key by { assert pos < num ==> a[pos + 1] == s[pos]; }
    InsertedSorted(s, pos, key);
  }

  lemma InsertedSorted(s: seq<int>, pos: nat, key: int)
    requires Sorted(s) && pos <= |s| && key !in s
    requires (pos > 0 ==> s[pos - 1] <= key) && (pos < |s| ==> key < s[pos])
    ensures Sorted(Inserted(s, pos, key))
  {
    var r := Inserted(s, pos, key);
    assert pos > 0 ==> s[pos - 1] in s;
    assert forall k | 0 <= k < |r| :: r[k] == if k < pos then s[k] else if k == pos then key else s[k - 1];
  }

  lemma InsertedElems(s: seq<int>, pos: nat, key: int)
    requires pos <= |s|
    ensures Elems(Inserted(s, pos, key)) == Elems(s) + {key}
  {
    assert s == s[..pos] + s[pos..];
  }

  lemma {:induction false} SortedCount(s: seq<int>)
    requires Sorted(s)
    ensures |Elems(s)| == |s|
  {
    if s == [] {
      assert Elems(s) == {};
    } else {
      var init, last := s[..|s| - 1], s[|s| - 1];
      SortedCount(init);
      assert s == init + [last];
      assert Elems(s) == Elems(init) + {last};
    }
  }
}

/**
 The OMIT store (src/omit.c): days omitted by weekday, every year, or once, with
 a stack of saved contexts.
 */
module Omit {
  import opened Gregorian
  import opened SortedArrays

  const MAX_FULL_OMITS := 1000
  const MAX_PARTIAL_OMITS := 366

  datatype Status =
    | OK | E_PARSE_AS_REM | E_2MANY_FULL | E_BAD_DATE | E_SPEC_MON | E_PARSE_ERR | E_2MANY_LOCALOMIT | E_POP_NO_PUSH

  /** What is omitted: single days, days of every year (as codes), and weekdays. */
  datatype Context = Context(full: set<int>, partial: set<int>, weekdays: bv8)

  predicate HasDay(mask: bv8, n: int)
    requires 0 <= n < 7
  {
    mask & (1 << n) != 0
  }

  /** The omit set, stated without arrays and searches. */
  predicate Omitted(c: Context, localomit: bv8, dse: nat) {
    || HasDay(localomit, dse % 7)
    || HasDay(c.weekdays, dse % 7)
    || dse in c.full
    || var date := DateAt(dse); Code(date.m, date.d) in c.partial
  }

  /** What a function named by OMITFUNC gives for a day; it counts only if there is such a function. */
  datatype FuncValue = Int(n: int) | Other | Error(code: int)

  datatype OmitFunc = NoFunc | Func(value: nat -> FuncValue)

  datatype OmitAnswer = Says(omit: bool) | Fails(code: int)

  // ----- Codes for the days of a year -----

  function Code(m: int, d: int): int {
    m * 32 + d
  }

  predicate IsCode(c: int) {
    0 <= c / 32 < 12 && 1 <= c % 32 <= MonthDays(c / 32)
  }

  /** Place of the day in a leap year, 0 to 365. */
  function Ord(c: int): (n: int)
    requires IsCode(c)
    ensures 0 <= n < 366
  {
    MonthIndex(true, c / 32) + c % 32 - 1
  }

  lemma OrdMonotone(a: int, b: int)
    requires IsCode(a) && IsCode(b)
    ensures a < b <==> Ord(a) < Ord(b)
  {
    assert a == 32 * (a / 32) + a % 32 && b == 32 * (b / 32) + b % 32;
    if a / 32 < b / 32 {
      MonthsApart(true, a / 32, b / 32);
    } else if b / 32 < a / 32 {
      MonthsApart(true, b / 32, a / 32);
    }
  }

  ghost predicate Codes(s: seq<int>) {
    forall i | 0 <= i < |s| :: IsCode(s[i])
  }

  lemma {:induction false} RankAtLeast(s: seq<int>, i: nat)
    requires Sorted(s) && Codes(s) && i < |s|
    ensures i <= Ord(s[i])
  {
    if i > 0 {
      RankAtLeast(s, i - 1);
      OrdMonotone(s[i - 1], s[i]);
    }
  }

  lemma {:induction false} RankAtMost(s: seq<int>, i: nat)
    requires Sorted(s) && Codes(s) && i < |s|
    ensures Ord(s[i]) <= 366 - |s| + i
    decreases |s| - i
  {
    if i + 1 < |s| {
      RankAtMost(s, i + 1);
      OrdMonotone(s[i], s[i + 1]);
    }
  }

  /** A code that is not yet stored always finds room: there are only 366 of them. */
  lemma RoomForCode(s: seq<int>, c: int)
    requires Sorted(s) && Codes(s) && IsCode(c)
    ensures c in s || |s| < MAX_PARTIAL_OMITS
  {
    if |s| >= 366 {
      var i := Ord(c);
      RankAtLeast(s, i);
      RankAtMost(s, i);
      OrdMonotone(s[i], c);
      OrdMonotone(c, s[i]);
      assert s[i] == c;
    }
  }

  /** The `k` days of the year from place `o` on, going round. */
  ghost function Cycle(o: int, k: int): set<int> {
    set c | 0 <= c < 384 && IsCode(c) && (Ord(c) - o) % 366 < k
  }

  lemma CycleStart(o: int)
    ensures Cycle(o, 0) == {}
  {
  }

  lemma CycleStep(o: int, k: int, c: int)
    requires 0 <= o < 366 && 0 <= k < 366 && IsCode(c) && Ord(c) == (o + k) % 366
    ensures Cycle(o, k + 1) == Cycle(o, k) + {c}
  {
    forall x | 0 <= x < 384 && IsCode(x)
      ensures (Ord(x) - o) % 366 == k <==> x == c
    {
      SamePlace(Ord(x), o, k);
      OrdMonotone(x, c);
      OrdMonotone(c, x);
    }
    SamePlace(Ord(c), o, k);
  }

  lemma SamePlace(x: int, o: int, k: int)
    requires 0 <= x < 366 && 0 <= o < 366 && 0 <= k < 366
    ensures (x - o) % 366 == k <==> x == (o + k) % 366
  {
  }

  /** The step of the walk over the year: the next day, and 1 January after 31 December. */
  function NextCode(m: int, d: int): (int, int)
    requires 0 <= m < 12
  {
    if d + 1 <= MonthDays(m) then (m, d + 1) else if m + 1 > 11 then (0, 1) else (m + 1, 1)
  }

  lemma NextPlace(m: int, d: int)
    requires 0 <= m < 12 && 1 <= d <= MonthDays(m)
    ensures var (m', d') := NextCode(m, d);
            && 0 <= m' < 12 && 1 <= d' <= MonthDays(m')
            && IsCode(Code(m, d)) && IsCode(Code(m', d')) && Ord(Code(m', d')) == (Ord(Code(m, d)) + 1) % 366
  {
    hide IsCode, Ord, Code;
    var (m', d') := NextCode(m, d);
    CodeOf(m, d);
    CodeOf(m', d');
    MonthStep(true, m);
  }

  lemma CodeParts(m: int, d: int)
    requires 0 <= d < 32
    ensures Code(m, d) / 32 == m && Code(m, d) % 32 == d
  {
  }

  lemma CodeOf(m: int, d: int)
    requires 0 <= m < 12 && 1 <= d <= MonthDays(m)
    ensures IsCode(Code(m, d)) && Ord(Code(m, d)) == MonthIndex(true, m) + d - 1
  {
    hide Code;
    CodeParts(m, d);
  }

  // ----- What a command asks for -----

  const NONE := -1         // NO_YR, NO_MON and NO_DAY

  datatype Spec = Spec(y: int, m: int, d: int)

  predicate Parsed(s: Spec) {
    && (s.y == NONE || BASE <= s.y)
    && (s.m == NONE || 0 <= s.m < 12)
    && (s.d == NONE || 1 <= s.d <= 31)
  }

  /** An OMIT command after parsing; `asRem` says that the rest of the line is a reminder. */
  datatype Command = Command(first: Spec, last: Spec, through: bool, wd: bv8, asRem: bool)

  predicate ParsedCommand(c: Command) {
    Parsed(c.first) && Parsed(c.last) && c.wd < 0x80
  }

  datatype Demand =
    | Refused(why: Status)
    | Weekdays(wd: bv8)
    | Yearly(from: int, to: int)
    | Days(first: int, last: int)

  function LastOfMonth(y: int, m: int): int
    requires 0 <= m < 12
  {
    if y == NONE then MonthDays(m) else DaysInMonth(m, y)
  }

  /** The days a command names: a month without a day stands for all of its days. */
  function Demanded(c: Command): Demand
    requires ParsedCommand(c)
  {
    var a, b := c.first, if c.through then c.last else c.first;
    if c.wd != 0 then
      if a != Spec(NONE, NONE, NONE) then Refused(E_PARSE_ERR) else Weekdays(c.wd)
    else if a.m == NONE || b.m == NONE then Refused(E_SPEC_MON)
    else if (a.y == NONE) != (b.y == NONE) then Refused(E_BAD_DATE)
    else
      Span(a.(d := if a.d == NONE then 1 else a.d), b.(d := if b.d == NONE then LastOfMonth(b.y, b.m) else b.d))
  }

  predicate Complete(s: Spec) {
    Parsed(s) && s.m != NONE && s.d != NONE
  }

  function Span(a: Spec, b: Spec): Demand
    requires Complete(a) && Complete(b) && (a.y == NONE <==> b.y == NONE)
  {
    if a.d > LastOfMonth(a.y, a.m) || b.d > LastOfMonth(b.y, b.m) then Refused(E_BAD_DATE)
    else if a.y == NONE then Yearly(Code(a.m, a.d), Code(b.m, b.d))
    else if DSE(b.y, b.m, b.d) < DSE(a.y, a.m, a.d) then Refused(E_BAD_DATE)
    else Days(DSE(a.y, a.m, a.d), DSE(b.y, b.m, b.d))
  }

  ghost function Range(lo: int, hi: int): (r: set<int>)
    ensures forall x :: x in r <==> lo <= x < hi
    decreases hi - lo
  {
    if lo >= hi then {} else {lo} + Range(lo + 1, hi)
  }

  /** Store days one by one until there is no room for one that is new. */
  ghost function StoreDays(full: set<int>, lo: int, hi: int): (set<int>, Status)
    decreases hi - lo
  {
    if lo > hi then (full, OK)
    else if lo in full then StoreDays(full, lo + 1, hi)
    else if |full| >= MAX_FULL_OMITS then (full, E_2MANY_FULL)
    else StoreDays(full + {lo}, lo + 1, hi)
  }

  /** Storing succeeds exactly when all days, old and new, fit; then exactly those are stored. */
  lemma {:induction false} StoreDaysFits(full: set<int>, lo: int, hi: int)
    requires |full| <= MAX_FULL_OMITS
    ensures var (full', r) := StoreDays(full, lo, hi);
            && (r == OK <==> |full + Range(lo, hi + 1)| <= MAX_FULL_OMITS)
            && (r == OK ==> full' == full + Range(lo, hi + 1))
            && (r != OK ==> r == E_2MANY_FULL && |full'| == MAX_FULL_OMITS
                            && full <= full' <= full + Range(lo, hi + 1))
    decreases hi - lo
  {
    var all := full + Range(lo, hi + 1);
    if lo > hi {
      assert all == full;
    } else if lo in full {
      StoreDaysFits(full, lo + 1, hi);
      assert full + Range(lo + 1, hi + 1) == all;
      StoreDaysSteps(full, lo, hi);
    } else if |full| >= MAX_FULL_OMITS {
      SubsetCount(full + {lo}, all);
    } else {
      StoreDaysFits(full + {lo}, lo + 1, hi);
      assert full + {lo} + Range(lo + 1, hi + 1) == all;
    }
  }

  lemma SubsetCount(a: set<int>, b: set<int>)
    requires a <= b
    ensures |a| <= |b|
  {
    assert a + (b - a) == b && a * (b - a) == {};
  }

  ghost predicate Meant(d: Demand) {
    d.Yearly? ==> IsCode(d.from) && IsCode(d.to)
  }

  /** What becomes of the context, and whether all went well. */
  ghost function Granted(d: Demand, ctx: Context): (Context, Status)
    requires Meant(d)
  {
    match d
    case Refused(why) => (ctx, why)
    case Weekdays(wd) =>
      if ctx.weekdays | wd == 0x7f then (ctx, E_2MANY_LOCALOMIT)
      else (ctx.(weekdays := ctx.weekdays | wd), OK)
    case Yearly(from, to) =>
      (ctx.(partial := ctx.partial + Cycle(Ord(from), (Ord(to) - Ord(from)) % 366 + 1)), OK)
    case Days(first, last) =>
      var (full, r) := StoreDays(ctx.full, first, last);
      (ctx.(full := full), r)
  }

  ghost function Applied(c: Command, ctx: Context): (Context, Status)
    requires ParsedCommand(c)
  {
    DemandMeant(c);
    var (ctx', r) := Granted(Demanded(c), ctx);
    (ctx', if r == OK && c.asRem then E_PARSE_AS_REM else r)
  }

  lemma SpanMeant(a: Spec, b: Spec)
    requires Complete(a) && Complete(b) && (a.y == NONE <==> b.y == NONE)
    ensures Meant(Span(a, b))
  {
    hide IsCode, Code;
    if Span(a, b).Yearly? {
      CodeOf(a.m, a.d);
      CodeOf(b.m, b.d);
    }
  }

  lemma DemandMeant(c: Command)
    requires ParsedCommand(c)
    ensures Meant(Demanded(c))
  {
    hide Span;
    var a, b := c.first, if c.through then c.last else c.first;
    if Demanded(c).Yearly? {
      SpanMeant(a.(d := if a.d == NONE then 1 else a.d), b.(d := if b.d == NONE then LastOfMonth(b.y, b.m) else b.d));
    }
  }

  // ----- The store -----

  datatype Saved = Saved(fullsave: seq<int>, partsave: seq<int>, weekdaysave: bv8)

  ghost predicate Sound(s: Saved) {
    && Sorted(s.fullsave) && |s.fullsave| <= MAX_FULL_OMITS
    && Sorted(s.partsave) && Codes(s.partsave) && |s.partsave| <= MAX_PARTIAL_OMITS
    && s.weekdaysave < 0x80
  }

  ghost function Abs(s: Saved): Context {
    Context(Elems(s.fullsave), Elems(s.partsave), s.weekdaysave)
  }

  ghost function AbsAll(stack: seq<Saved>): seq<Context> {
    seq(|stack|, i requires 0 <= i < |stack| => Abs(stack[i]))
  }

  lemma AbsPush(s: Saved, stack: seq<Saved>)
    ensures AbsAll([s] + stack) == [Abs(s)] + AbsAll(stack)
  {
  }

  lemma AbsPop(stack: seq<Saved>)
    ensures |AbsAll(stack)| == |stack|
    ensures stack != [] ==> AbsAll(stack)[0] == Abs(stack[0]) && AbsAll(stack)[1..] == AbsAll(stack[1..])
  {
  }

  lemma OrBelow(a: bv8, b: bv8)
    requires a < 0x80 && b < 0x80
    ensures a | b < 0x80
  {
  }

  class OmitStore {
    const fullOmitArray: array<int>
    const partialOmitArray: array<int>
    var numFullOmits: int
    var numPartialOmits: int
    var weekdayOmits: bv8
    var savedOmitContexts: seq<Saved>      // the most recently pushed context first

    ghost predicate Valid()
      reads this, fullOmitArray, partialOmitArray
    {
      && fullOmitArray.Length == MAX_FULL_OMITS && partialOmitArray.Length == MAX_PARTIAL_OMITS
      && fullOmitArray != partialOmitArray
      && 0 <= numFullOmits <= MAX_FULL_OMITS && 0 <= numPartialOmits <= MAX_PARTIAL_OMITS
      && Sound(Current())
      && forall s | s in savedOmitContexts :: Sound(s)
    }

    ghost function Current(): Saved
      requires 0 <= numFullOmits <= fullOmitArray.Length && 0 <= numPartialOmits <= partialOmitArray.Length
      reads this, fullOmitArray, partialOmitArray
    {
      Saved(fullOmitArray[..numFullOmits], partialOmitArray[..numPartialOmits], weekdayOmits)
    }

    ghost function View(): Context
      requires Valid()
      reads this, fullOmitArray, partialOmitArray
    {
      Abs(Current())
    }

    constructor ()
      ensures Valid() && View() == Context({}, {}, 0) && savedOmitContexts == []
      ensures fresh(fullOmitArray) && fresh(partialOmitArray)
    {
      fullOmitArray := new int[1000];
      partialOmitArray := new int[366];
      numFullOmits, numPartialOmits, weekdayOmits, savedOmitContexts := 0, 0, 0, [];
    }

    method ClearGlobalOmits()
      requires Valid()
      modifies this`numFullOmits, this`numPartialOmits, this`weekdayOmits
      ensures Valid() && View() == Context({}, {}, 0)
    {
      numFullOmits, numPartialOmits, weekdayOmits := 0, 0, 0;
    }

    method PushOmitContext()
      requires Valid()
      modifies this`savedOmitContexts
      ensures Valid() && savedOmitContexts == [old(Current())] + old(savedOmitContexts)
    {
      var c := Saved(fullOmitArray[..numFullOmits], partialOmitArray[..numPartialOmits], weekdayOmits);
      savedOmitContexts := [c] + savedOmitContexts;
    }

    method PopOmitContext() returns (r: Status)
      requires Valid()
      modifies this, fullOmitArray, partialOmitArray
      ensures Valid()
      ensures old(savedOmitContexts) == [] ==>
              r == E_POP_NO_PUSH && Current() == old(Current()) && savedOmitContexts == []
      ensures old(savedOmitContexts) != [] ==>
                r == OK && Current() == old(savedOmitContexts)[0] && savedOmitContexts == old(savedOmitContexts)[1..]
    {
      if savedOmitContexts == [] {
        return E_POP_NO_PUSH;
      }
      var c := savedOmitContexts[0];
      assert c in savedOmitContexts;
      numFullOmits, numPartialOmits, weekdayOmits := |c.fullsave|, |c.partsave|, c.weekdaysave;
      CopyInto(fullOmitArray, c.fullsave);
      CopyInto(partialOmitArray, c.partsave);
      savedOmitContexts := savedOmitContexts[1..];
      return OK;
    }

    /** Membership in the omit set, unless a function decides: then nothing else is looked at. */
    method IsOmitted(dse: int, localomit: bv8, omitfunc: OmitFunc) returns (r: OmitAnswer)
      requires Valid() && dse >= 0
      ensures omitfunc == NoFunc ==> r == Says(Omitted(View(), localomit, dse))
      ensures omitfunc.Func? ==>
                match omitfunc.value(dse)
                case Error(code) => r == Fails(code)
                case Int(n) => r == Says(n != 0)
                case Other => r == Says(false)
    {
      if omitfunc.Func? {
        var v := omitfunc.value(dse);
        if v.Error? {
          return Fails(v.code);
        }
        return Says(v.Int? && v.n != 0);
      }
      if localomit & (1 << (dse % 7)) != 0 {
        return Says(true);
      }
      if weekdayOmits & (1 << (dse % 7)) != 0 {
        return Says(true);
      }
      var found := BexistsIntArray(fullOmitArray, numFullOmits, dse);
      if found {
        return Says(true);
      }
      var _, m, d := FromDSE(dse);
      found := BexistsIntArray(partialOmitArray, numPartialOmits, Code(m, d));
      return Says(found);
    }

    method AddDay(dse: int)
      requires Valid() && (numFullOmits < MAX_FULL_OMITS || dse in View().full)
      modifies this`numFullOmits, fullOmitArray
      ensures Valid() && View() == old(View()).(full := old(View()).full + {dse})
    {
      var found := BexistsIntArray(fullOmitArray, numFullOmits, dse);
      if !found {
        ghost var s := fullOmitArray[..numFullOmits];
        ghost var pos := InsertIntoSortedArray(fullOmitArray, numFullOmits, dse);
        InsertedElems(s, pos, dse);
        numFullOmits := numFullOmits + 1;
      }
    }

    /** No bound is checked here, and none needs to be. */
    method AddYearly(code: int)
      requires Valid() && IsCode(code)
      modifies this`numPartialOmits, partialOmitArray
      ensures Valid() && View() == old(View()).(partial := old(View()).partial + {code})
    {
      var found := BexistsIntArray(partialOmitArray, numPartialOmits, code);
      if !found {
        ghost var s := partialOmitArray[..numPartialOmits];
        RoomForCode(s, code);
        ghost var pos := InsertIntoSortedArray(partialOmitArray, numPartialOmits, code);
        InsertedElems(s, pos, code);
        assert Codes(Inserted(s, pos, code));
        numPartialOmits := numPartialOmits + 1;
      }
    }

    method AddGlobalOmit(dse: int) returns (r: Status)
      requires Valid()
      modifies this, fullOmitArray
      ensures Valid() && savedOmitContexts == old(savedOmitContexts)
      ensures (View(), r) == Added(dse, old(View()))
    {
      SortedCount(fullOmitArray[..numFullOmits]);
      if dse < 0 {
        return OK;
      }
      if numFullOmits == MAX_FULL_OMITS {
        return E_2MANY_FULL;
      }
      AddDay(dse);
      return OK;
    }

    /** The walk over the year from one day to another, inclusive, across the year's end if need be. */
    method OmitYearly(m0: int, d0: int, m1: int, d1: int)
      requires Valid() && 0 <= m0 < 12 && 1 <= d0 <= MonthDays(m0) && 0 <= m1 < 12 && 1 <= d1 <= MonthDays(m1)
      requires IsCode(Code(m0, d0)) && IsCode(Code(m1, d1))
      modifies this`numPartialOmits, partialOmitArray
      ensures Valid()
      ensures var o0, o1 := Ord(Code(m0, d0)), Ord(Code(m1, d1));
              View() == old(View()).(partial := old(View()).partial + Cycle(o0, (o1 - o0) % 366 + 1))
    {
      hide Ord, Code, IsCode, Cycle, Elems, Sound;
      ghost var o0, o1 := Ord(Code(m0, d0)), Ord(Code(m1, d1));
      ghost var k := 0;
      var mc, dc := m0, d0;
      CycleStart(o0);
      while true
        invariant Valid() && 0 <= mc < 12 && 1 <= dc <= MonthDays(mc) && IsCode(Code(mc, dc))
        invariant 0 <= k <= (o1 - o0) % 366 && Ord(Code(mc, dc)) == (o0 + k) % 366
        invariant View() == old(View()).(partial := old(View()).partial + Cycle(o0, k))
        decreases (o1 - o0) % 366 - k
      {
        var syndrome := Code(mc, dc);
        AddYearly(syndrome);
        CycleStep(o0, k, syndrome);
        SamePlace(o1, o0, k);
        CodesAt(mc, dc, m1, d1);
        if mc == m1 && dc == d1 {
          break;
        }
        NextPlace(mc, dc);
        dc := dc + 1;
        if dc > MonthDays(mc) {
          dc := 1;
          mc := mc + 1;
          if mc > 11 {
            mc := 0;
          }
        }
        k := k + 1;
      }
    }

    method OmitDays(start: int, end: int) returns (r: Status)
      requires Valid() && start <= end
      modifies this`numFullOmits, fullOmitArray
      ensures Valid()
      ensures var (full, s) := StoreDays(old(View()).full, start, end);
              r == s && View() == old(View()).(full := full)
    {
      hide Elems, Sorted, StoreDays;
      StoreDaysSteps(View().full, start, end);
      var tmp := start;
      while tmp <= end
        invariant start <= tmp
        invariant Valid() && View() == old(View()).(full := View().full)
        invariant StoreDays(View().full, tmp, end) == StoreDays(old(View()).full, start, end)
      {
        StoreDaysSteps(View().full, tmp, end);
        SortedCount(fullOmitArray[..numFullOmits]);
        ElemsIn(fullOmitArray[..numFullOmits], tmp);
        var found := BexistsIntArray(fullOmitArray, numFullOmits, tmp);
        if !found {
          if numFullOmits >= MAX_FULL_OMITS {
            return E_2MANY_FULL;
          }
        }
        AddDay(tmp);
        tmp := tmp + 1;
      }
      StoreDaysSteps(View().full, tmp, end);
      return OK;
    }

    method OmitSpan(y0: int, m0: int, d0: int, y1: int, m1: int, d1: int) returns (r: Status)
      requires Valid() && Complete(Spec(y0, m0, d0)) && Complete(Spec(y1, m1, d1)) && (y0 == NONE <==> y1 == NONE)
      requires Meant(Span(Spec(y0, m0, d0), Spec(y1, m1, d1)))
      modifies this`numFullOmits, this`numPartialOmits, fullOmitArray, partialOmitArray
      ensures Valid() && (View(), r) == Granted(Span(Spec(y0, m0, d0), Spec(y1, m1, d1)), old(View()))
    {
      hide StoreDays, Cycle, Elems, Sorted, Codes, IsCode, Ord, Code, DSE, Sound;
      if y0 == NONE {
        if d0 > MonthDays(m0) || d1 > MonthDays(m1) {
          return E_BAD_DATE;
        }
        OmitYearly(m0, d0, m1, d1);
        return OK;
      } else {
        if d0 > DaysInMonth(m0, y0) || d1 > DaysInMonth(m1, y1) {
          return E_BAD_DATE;
        }
        var start, end := DSE(y0, m0, d0), DSE(y1, m1, d1);
        if end < start {
          return E_BAD_DATE;
        }
        r := OmitDays(start, end);
      }
    }

    method OmitWeekdays(wd: bv8) returns (r: Status)
      requires Valid() && wd < 0x80
      modifies this`weekdayOmits
      ensures Valid() && View() == old(View()).(weekdays := weekdayOmits)
      ensures old(weekdayOmits) | wd == 0x7f ==> r == E_2MANY_LOCALOMIT && weekdayOmits == old(weekdayOmits)
      ensures old(weekdayOmits) | wd != 0x7f ==> r == OK && weekdayOmits == old(weekdayOmits) | wd
    {
      hide Elems, Sorted, Codes;
      OrBelow(weekdayOmits, wd);
      var both := weekdayOmits | wd;
      if both == 0x7f {
        return E_2MANY_LOCALOMIT;
      }
      weekdayOmits := both;
      return OK;
    }

    /** The storing half of the OMIT command. */
    method DoOmit(c: Command) returns (r: Status)
      requires Valid() && ParsedCommand(c)
      modifies this`numFullOmits, this`numPartialOmits, this`weekdayOmits, fullOmitArray, partialOmitArray
      ensures Valid() && (View(), r) == Applied(c, old(View()))
    {
      hide StoreDays, Cycle, Sound, Span, Elems, IsCode, Ord, ParsedCommand, Demanded;
      DemandMeant(c);
      WeekdaysDemanded(c);
      if c.wd != 0 {
        if c.first.y != NONE || c.first.m != NONE || c.first.d != NONE {
          return E_PARSE_ERR;
        }
        r := OmitWeekdays(c.wd);
      } else {
        var a, b;
        r, a, b := Endpoints(c);
        if r == OK {
          r := OmitSpan(a.y, a.m, a.d, b.y, b.m, b.d);
        }
      }
      if r == OK && c.asRem {
        r := E_PARSE_AS_REM;
      }
    }

    ghost function StateView(): State
      requires Valid()
      reads this, fullOmitArray, partialOmitArray
    {
      State(View(), AbsAll(savedOmitContexts))
    }

    /** The commands that touch the store do to it what Step says. */
    method Execute(op: Op) returns (r: Status)
      requires Valid() && (op.Omit? ==> ParsedCommand(op.c))
      modifies this, fullOmitArray, partialOmitArray
      ensures Valid() && (StateView(), r) == Step(op, old(StateView()))
    {
      hide Sound, Applied, Abs, Added, AbsAll;
      r := OK;
      match op
      case Push =>
        PushOmitContext();
        AbsPush(Current(), old(savedOmitContexts));
      case Pop =>
        AbsPop(savedOmitContexts);
        r := PopOmitContext();
      case Clear => ClearGlobalOmits();
      case Omit(c) => r := DoOmit(c);
      case AddOmit(dse) => r := AddGlobalOmit(dse);
    }
  }

  // ----- Runs of commands -----

  datatype Op = Push | Pop | Clear | Omit(c: Command) | AddOmit(dse: int)

  datatype State = State(ctx: Context, saved: seq<Context>)

  ghost predicate ParsedOps(ops: seq<Op>) {
    forall i | 0 <= i < |ops| && ops[i].Omit? :: ParsedCommand(ops[i].c)
  }

  ghost function Step(op: Op, s: State): (State, Status)
    requires op.Omit? ==> ParsedCommand(op.c)
  {
    match op
    case Push => (State(s.ctx, [s.ctx] + s.saved), OK)
    case Pop => if s.saved == [] then (s, E_POP_NO_PUSH) else (State(s.saved[0], s.saved[1..]), OK)
    case Clear => (s.(ctx := Context({}, {}, 0)), OK)
    case Omit(c) => var (ctx, r) := Applied(c, s.ctx); (s.(ctx := ctx), r)
    case AddOmit(dse) => var (ctx, r) := Added(dse, s.ctx); (s.(ctx := ctx), r)
  }

  ghost function Run(ops: seq<Op>, s: State): State
    requires ParsedOps(ops)
  {
    if ops == [] then s else Run(ops[1..], Step(ops[0], s).0)
  }

  /** `ops` pops what it pushes, and `depth` contexts more, and no others. */
  predicate Pops(ops: seq<Op>, depth: nat) {
    if ops == [] then depth == 0
    else if ops[0].Push? then Pops(ops[1..], depth + 1)
    else if ops[0].Pop? then depth > 0 && Pops(ops[1..], depth - 1)
    else Pops(ops[1..], depth)
  }

  lemma {:induction false} RunPops(ops: seq<Op>, depth: nat, s: State)
    requires ParsedOps(ops) && Pops(ops, depth) && depth <= |s.saved|
    ensures Run(ops, s).saved == s.saved[depth..]
  {
    hide Applied, Added;
    if ops != [] {
      var s' := Step(ops[0], s).0;
      if ops[0].Push? {
        RunPops(ops[1..], depth + 1, s');
      } else if ops[0].Pop? {
        RunPops(ops[1..], depth - 1, s');
      } else {
        RunPops(ops[1..], depth, s');
      }
    }
  }

  lemma {:induction false} RunConcat(a: seq<Op>, b: seq<Op>, s: State)
    requires ParsedOps(a + b)
    ensures ParsedOps(a) && ParsedOps(b) && Run(a + b, s) == Run(b, Run(a, s))
  {
    assert forall i | 0 <= i < |b| :: b[i] == (a + b)[|a| + i];
    assert forall i | 0 <= i < |a| :: a[i] == (a + b)[i];
    if a == [] {
      assert a + b == b;
    } else {
      assert (a + b)[1..] == a[1..] + b;
      RunConcat(a[1..], b, Step(a[0], s).0);
    }
  }

  /** Whatever happens between PUSH and the matching POP, the omit set comes back exactly. */
  lemma PushPopRestores(ops: seq<Op>, s: State)
    requires ParsedOps(ops) && Pops(ops, 0)
    ensures ParsedOps([Push] + ops + [Pop]) && Run([Push] + ops + [Pop], s) == s
  {
    hide Applied, Added;
    var s' := Step(Push, s).0;
    assert [Push] + ops + [Pop] == [Push] + (ops + [Pop]);
    assert ([Push] + (ops + [Pop]))[1..] == ops + [Pop];
    RunConcat(ops, [Pop], s');
    RunPops(ops, 0, s');
    assert s'.saved[0..] == s'.saved;
  }

  predicate Free(c: Context) {
    c.weekdays < 0x80 && c.weekdays != 0x7f
  }

  lemma OmitKeepsFree(c: Command, ctx: Context)
    requires ParsedCommand(c) && Free(ctx)
    ensures Free(Applied(c, ctx).0)
  {
    hide StoreDays, Cycle, IsCode, Ord, Code, DSE;
    DemandMeant(c);
    OrBelow(ctx.weekdays, c.wd);
  }

  lemma StepKeepsFree(op: Op, s: State)
    requires op.Omit? ==> ParsedCommand(op.c) && Free(Applied(op.c, s.ctx).0)
    requires Free(s.ctx) && forall c | c in s.saved :: Free(c)
    ensures Free(Step(op, s).0.ctx) && forall c | c in Step(op, s).0.saved :: Free(c)
  {
    hide Applied;
  }

  /** No run of commands ever omits all seven weekdays. */
  lemma SomeWeekdayFree(ops: seq<Op>, s: State) returns (n: int)
    requires ParsedOps(ops) && Free(s.ctx) && forall c | c in s.saved :: Free(c)
    ensures 0 <= n < 7 && !HasDay(Run(ops, s).ctx.weekdays, n)
  {
    hide Run, HasDay;
    RunKeepsFree(ops, s);
    FreeWeekday(Run(ops, s).ctx.weekdays);
    n :| 0 <= n < 7 && !HasDay(Run(ops, s).ctx.weekdays, n);
  }

  lemma {:induction false} RunKeepsFree(ops: seq<Op>, s: State)
    requires ParsedOps(ops) && Free(s.ctx) && forall c | c in s.saved :: Free(c)
    ensures Free(Run(ops, s).ctx) && forall c | c in Run(ops, s).saved :: Free(c)
  {
    hide Applied, Free;
    if ops != [] {
      if ops[0].Omit? {
        OmitKeepsFree(ops[0].c, s.ctx);
      }
      StepKeepsFree(ops[0], s);
      var s' := Step(ops[0], s).0;
      RunKeepsFree(ops[1..], s');
    }
  }

  /** Only a mask of all seven bits omits all weekdays. */
  lemma FreeWeekday(mask: bv8)
    requires mask < 0x80
    ensures mask == 0x7f <==> forall n | 0 <= n < 7 :: HasDay(mask, n)
  {
    if mask != 0x7f {
      assert !HasDay(mask, 0) || !HasDay(mask, 1) || !HasDay(mask, 2) || !HasDay(mask, 3)
          || !HasDay(mask, 4) || !HasDay(mask, 5) || !HasDay(mask, 6);
    } else {
      assert HasDay(mask, 0) && HasDay(mask, 1) && HasDay(mask, 2) && HasDay(mask, 3)
          && HasDay(mask, 4) && HasDay(mask, 5) && HasDay(mask, 6);
      forall n | 0 <= n < 7 ensures HasDay(mask, n) {
        assert n == 0 || n == 1 || n == 2 || n == 3 || n == 4 || n == 5 || n == 6;
      }
    }
  }

  lemma JoinedWeekdays(a: bv8, b: bv8, n: int)
    requires 0 <= n < 7
    ensures HasDay(a | b, n) <==> HasDay(a, n) || HasDay(b, n)
  {
    assert n == 0 || n == 1 || n == 2 || n == 3 || n == 4 || n == 5 || n == 6;
  }

  lemma StoreDaysSteps(full: set<int>, lo: int, hi: int)
    ensures StoreDays(full, lo, hi) ==
            if lo > hi then (full, OK)
            else if lo !in full && |full| >= MAX_FULL_OMITS then (full, E_2MANY_FULL)
            else StoreDays(full + {lo}, lo + 1, hi)
  {
    if lo in full {
      assert full + {lo} == full;
    }
  }

  lemma ElemsIn(s: seq<int>, x: int)
    ensures x in Elems(s) <==> x in s
  {
  }

  lemma WeekdaysDemanded(c: Command)
    requires ParsedCommand(c)
    ensures c.wd < 0x80
    ensures c.wd != 0 ==>
              Demanded(c) == if c.first != Spec(NONE, NONE, NONE) then Refused(E_PARSE_ERR) else Weekdays(c.wd)
  {
  }

  /** Supply the days and the end that the command leaves out. */
  method Endpoints(c: Command) returns (r: Status, a: Spec, b: Spec)
    requires ParsedCommand(c) && c.wd == 0
    ensures r == OK ==> Complete(a) && Complete(b) && (a.y == NONE <==> b.y == NONE) && Demanded(c) == Span(a, b)
    ensures r != OK ==> Demanded(c) == Refused(r)
  {
    hide Span;
    var y0, m0, d0 := c.first.y, c.first.m, c.first.d;
    var y1, m1, d1 := c.last.y, c.last.m, c.last.d;
    a, b := c.first, c.last;
    if m0 == NONE {
      return E_SPEC_MON, a, b;
    }
    if !c.through {
      m1, y1 := m0, y0;
      if d0 == NONE {
        d0 := 1;
        d1 := if y0 == NONE then MonthDays(m0) else DaysInMonth(m0, y0);
      } else {
        d1, m1, y1 := d0, m0, y0;
      }
    } else {
      if m1 == NONE {
        return E_SPEC_MON, a, b;
      }
      if (y0 != NONE && y1 == NONE) || (y0 == NONE && y1 != NONE) {
        return E_BAD_DATE, a, b;
      }
      if d0 == NONE {
        d0 := 1;
      }
      if d1 == NONE {
        d1 := if y1 == NONE then MonthDays(m1) else DaysInMonth(m1, y1);
      }
    }
    return OK, Spec(y0, m0, d0), Spec(y1, m1, d1);
  }

  lemma CodesAt(m: int, d: int, m': int, d': int)
    requires 0 <= m < 12 && 1 <= d <= MonthDays(m) && 0 <= m' < 12 && 1 <= d' <= MonthDays(m')
    ensures IsCode(Code(m, d)) && IsCode(Code(m', d'))
    ensures Ord(Code(m, d)) == Ord(Code(m', d')) <==> m == m' && d == d'
  {
    hide IsCode, Ord, Code;
    CodeOf(m, d);
    CodeOf(m', d');
    if m < m' {
      MonthsApart(true, m, m');
    } else if m' < m {
      MonthsApart(true, m', m);
    }
  }

  method CopyInto(a: array<int>, s: seq<int>)
    requires |s| <= a.Length
    modifies a
    ensures a[..|s|] == s
  {
    for i := 0 to |s|
      invariant a[..i] == s[..i]
    {
      a[i] := s[i];
    }
  }

  /** A single day, as added on behalf of ADDOMIT: a full store refuses even a day it has. */
  ghost function Added(dse: int, c: Context): (Context, Status) {
    if dse < 0 then (c, OK)
    else if |c.full| == MAX_FULL_OMITS then (c, E_2MANY_FULL)
    else (c.(full := c.full + {dse}), OK)
  }
}
