/**
 Numbers in the first pass of the JSON parser (src/json.c): which are read, and how.
 */
module JsonNumbers {
  import opened Bytes
  import opened Decimals
  import opened Escape
  import opened Json
  import opened JsonFirstPass
  import opened JsonCounts
  import opened JsonSecondPass
  import opened JsonValues

  // ----- What digits are worth -----

  /** The number that begins with `k` and goes on with these digits. */
  function Reading(d: Text, k: int): int
    requires OnlyDigits(d)
  {
    if d == [] then k else Reading(d[1..], k * 10 + (d[0] - 48))
  }

  lemma {:induction false} ReadingGrows(d: Text, k: int)
    requires OnlyDigits(d) && 0 <= k
    ensures k <= Reading(d, k)
  {
    if d != [] {
      ReadingGrows(d[1..], k * 10 + (d[0] - 48));
    }
  }

  lemma {:induction false} ReadingAppend(d: Text, c: Byte, k: int)
    requires OnlyDigits(d) && Digit(c)
    ensures OnlyDigits(d + [c]) && Reading(d + [c], k) == Reading(d, k) * 10 + (c - 48)
  {
    if d == [] {
      assert d + [c] == [c];
      assert [c][1..] == [];
    } else {
      assert (d + [c])[1..] == d[1..] + [c];
      ReadingAppend(d[1..], c, k * 10 + (d[0] - 48));
    }
  }

  lemma {:induction false} ReadingBack(n: nat)
    ensures OnlyDigits(Digits(n)) && Reading(Digits(n), 0) == n
    decreases n
  {
    if n < 10 {
      assert Digits(n)[1..] == [];
    } else {
      ReadingBack(n / 10);
      ReadingAppend(Digits(n / 10), n % 10 + 48, 0);
    }
  }

  // ----- Steps -----

  /** Only the number on top and the place in it have changed. */
  predicate SameNumber(s: State, t: State) {
    && HasTop(s) && HasTop(t) && IsNumber(Top(s).kind) && IsNumber(Top(t).kind)
    && t == WithTop(s, Top(s).(kind := Top(t).kind, integer := Top(t).integer)).(ptr := t.ptr, num := t.num)
  }

  lemma SameTwice(s: State, t: State, u: State)
    requires SameNumber(s, t) && SameNumber(t, u)
    ensures SameNumber(s, u)
  {
  }

  /** The pass goes on from `s` to `t`. */
  ghost predicate Goes(json: Text, s: State, t: State) {
    WF(json, s) && WF(json, t) && Run(json, true, s) == Run(json, true, t)
  }

  lemma OneStep(json: Text, s: State)
    requires WF(json, s)
    ensures Step(json, true, s).More? ==> Goes(json, s, Step(json, true, s).s)
    ensures Step(json, true, s).Failed? ==> Run(json, true, s) == Rejected
  {
    hide Step, WF, Measure;
    StepSound(json, s);
  }

  /** One character of a number. */
  lemma OneChar(json: Text, s: State) returns (t: State)
    requires WF(json, s) && InNumber(s) && NumberChar(Top(s), s.num, ByteAt(json, s.ptr)).Go?
    ensures var a := NumberChar(Top(s), s.num, ByteAt(json, s.ptr));
            Goes(json, s, t) && SameNumber(s, t) && InNumber(t) && Top(t) == a.n && t.num == a.num
            && t.ptr == if a.reproc then s.ptr else s.ptr + 1
  {
    hide Run, WF, NumberChar, Measure;
    OneStep(json, s);
    NumberGoes(Top(s), s.num, ByteAt(json, s.ptr));
    t := Step(json, true, s).s;
  }

  // ----- Rows of digits -----

  /** Before the digits `d` of a whole number, of a fraction or of a power. */
  predicate BeforeDigits(s: State, d: Text) {
    && InNumber(s) && s.num.digits >= 0
    && (Top(s).kind == Integer && !s.num.e ==>
          && 0 <= Top(s).integer <= LONG_MAX && (s.num.zero ==> d == [])
          && (s.num.digits == 0 && d != [] && d[0] == 48 ==> |d| == 1))
  }

  /** Behind them, the number that they make has been read, or has turned out to be too large. */
  predicate BehindDigits(s: State, t: State, d: Text)
    requires InNumber(s) && OnlyDigits(d)
  {
    && SameNumber(s, t) && InNumber(t) && t.ptr == s.ptr + |d|
    && t.num.digits == s.num.digits + |d| && t.num.e == s.num.e && t.num.negative == s.num.negative
    && (!s.num.e ==> t.num.eGotSign == s.num.eGotSign)
    && (Top(s).kind == Double ==> Top(t).kind == Double)
    && (Top(s).kind == Integer && !s.num.e ==>
          var n := Reading(d, Top(s).integer);
          if n <= LONG_MAX then Top(t).kind == Integer && Top(t).integer == n else Top(t).kind == Double)
  }

  lemma {:induction false} DigitsWalk(json: Text, s: State, d: Text) returns (t: State)
    requires WF(json, s) && OnlyDigits(d) && Here(json, s.ptr, d) && BeforeDigits(s, d)
    ensures Goes(json, s, t) && BehindDigits(s, t, d)
    decreases |d|, if HasTop(s) && Top(s).kind == Integer then 1 else 0
  {
    hide WF, Run, NumberChar;
    if d == [] {
      t := s;
      assert WithTop(s, Top(s)) == s;
    } else {
      HereAt(json, s.ptr, d, 0);
      assert d == [d[0]] + d[1..];
      HereSplit(json, s.ptr, [d[0]], d[1..]);
      OneDigit(s, d);
      var t1 := OneChar(json, s);
      if t1.ptr == s.ptr {
        ReadingGrows(d[1..], Top(s).integer * 10 + (d[0] - 48));
        t := DigitsWalk(json, t1, d);
      } else {
        t := DigitsWalk(json, t1, d[1..]);
      }
      SameTwice(s, t1, t);
    }
  }

  lemma OneDigit(s: State, d: Text)
    requires BeforeDigits(s, d) && OnlyDigits(d) && d != []
    ensures var a := NumberChar(Top(s), s.num, d[0]);
            && a.Go? && a.num.e == s.num.e && a.num.negative == s.num.negative
            && (!s.num.e ==> a.num.eGotSign == s.num.eGotSign)
            && (a.reproc ==>
                  && Top(s).kind == Integer && !s.num.e && a.n.kind == Double && a.num.digits == s.num.digits
                  && Top(s).integer * 10 + (d[0] - 48) > LONG_MAX)
            && (!a.reproc ==> a.num.digits == s.num.digits + 1 && a.n.kind == Top(s).kind)
            && (!a.reproc && Top(s).kind == Integer && !s.num.e ==>
                  && a.n.integer == Top(s).integer * 10 + (d[0] - 48) && 0 <= a.n.integer <= LONG_MAX
                  && (a.num.zero ==> |d| == 1))
  {
  }

  // ----- Whole numbers, fractions and powers -----

  /** The number begins in `t1`, behind its sign. */
  lemma WholeWalk(json: Text, s: State, n: nat) returns (t: State)
    requires WF(json, s) && InNumber(s) && Top(s).kind == Integer && Top(s).integer == 0
    requires s.num.digits == 0 && !s.num.zero && !s.num.e && Here(json, s.ptr, Digits(n))
    ensures Goes(json, s, t) && BehindDigits(s, t, Digits(n)) && t.num.digits > 0
    ensures if n <= LONG_MAX then Top(t).kind == Integer && Top(t).integer == n else Top(t).kind == Double
  {
    hide WF, Run, Digits;
    ReadingBack(n);
    FirstDigit(n);
    t := DigitsWalk(json, s, Digits(n));
  }

  /** A point and digits turn the number into a floating point number. */
  lemma FractionWalk(json: Text, s: State, d: Text) returns (t: State)
    requires WF(json, s) && InNumber(s) && Top(s).kind == Integer && s.num.digits > 0 && !s.num.e
    requires OnlyDigits(d) && d != [] && Here(json, s.ptr, [46] + d)
    ensures Goes(json, s, t) && SameNumber(s, t) && InNumber(t) && t.ptr == s.ptr + 1 + |d|
    ensures Top(t).kind == Double && t.num.digits > 0 && !t.num.e && t.num.negative == s.num.negative
    ensures t.num.eGotSign == s.num.eGotSign
  {
    hide WF, Run;
    HereSplit(json, s.ptr, [46], d);
    HereAt(json, s.ptr, [46], 0);
    var t1 := OneChar(json, s);
    t := DigitsWalk(json, t1, d);
    SameTwice(s, t1, t);
  }

  lemma PowerWalk(json: Text, s: State, mark: Text, d: Text) returns (t: State)
    requires WF(json, s) && InNumber(s) && s.num.digits > 0 && !s.num.e && !s.num.eGotSign
    requires PowerMark(mark) && OnlyDigits(d) && d != [] && Here(json, s.ptr, mark + d)
    ensures Goes(json, s, t) && SameNumber(s, t) && InNumber(t) && t.ptr == s.ptr + |mark| + |d|
    ensures Top(t).kind == Double && t.num.digits > 0 && t.num.negative == s.num.negative
  {
    hide WF, Run;
    HereSplit(json, s.ptr, mark, d);
    HereAt(json, s.ptr, mark, 0);
    var t1 := OneChar(json, s);
    if |mark| == 2 {
      HereAt(json, s.ptr, mark, 1);
      var t2 := OneChar(json, t1);
      SameTwice(s, t1, t2);
      t1 := t2;
    }
    t := DigitsWalk(json, t1, d);
    SameTwice(s, t1, t);
  }

  /** A character that cannot belong to the number ends it. */
  lemma NumberStops(json: Text, s: State)
    requires WF(json, s) && InNumber(s) && s.num.digits > 0 && !NumChar(ByteAt(json, s.ptr))
    ensures Step(json, true, s) == Next(true, WithTop(s, Signed(Top(s), s.num)), true)
  {
    hide WF, Next, Signed;
  }

  /** A number too large for an integer cannot go on with a point. */
  lemma TooLarge(json: Text, s: State)
    requires WF(json, s) && InNumber(s) && Top(s).kind == Double && s.num.digits > 0 && !s.num.e
    requires ByteAt(json, s.ptr) == 46
    ensures Run(json, true, s) == Rejected
  {
    hide Run, Next, Signed, Tree;
    var x := WithTop(s, Signed(Top(s), s.num));
    assert Step(json, true, s) == Next(true, x, true);
    OneStep(json, s);
    StepSound(json, s);
    if Next(true, x, true).More? {
      SignedSame(Top(s), s.num);
      TreeTop(s);
      TreeUpdate(s, Top(x));
      NumberEnds(json, x, Next(true, x, true).s);
      OneStep(json, Next(true, x, true).s);
    }
  }

  /** Behind the sign of a number `n` of the text. */
  predicate NumberOpened(s: State, n: Numeral) {
    && InNumber(s) && Top(s).kind == Integer && Top(s).integer == 0
    && s.num == Num(0, n.negative, false, false, false)
  }

  function Unsigned(n: Numeral): Text {
    WrittenNumber(n.(negative := false))
  }

  /** To the end of a number. */
  lemma NumberWalk(json: Text, s: State, n: Numeral) returns (t: State)
    requires WF(json, s) && NumberOpened(s, n) && ValidNumber(n)
    requires Here(json, s.ptr, Unsigned(n)) && !NumChar(ByteAt(json, s.ptr + |Unsigned(n)|))
    ensures n.whole <= LONG_MAX || n.fraction == [] ==>
              && Goes(json, s, t) && SameNumber(s, t) && InNumber(t) && t.ptr == s.ptr + |Unsigned(n)|
              && t.num.digits > 0 && t.num.negative == n.negative
              && (if IsInteger(n) then Top(t).kind == Integer && Top(t).integer == n.whole else Top(t).kind == Double)
    ensures n.whole > LONG_MAX && n.fraction != [] ==> Run(json, true, s) == Rejected
  {
    hide WF, Run, Digits, OnlyDigits, PowerMark, Here;
    var w, f := Digits(n.whole), if n.fraction == [] then [] else [46] + n.fraction;
    var e := if n.power == [] then [] else n.mark + n.power;
    NumberParts(json, s.ptr, n, w, f, e);
    var t0 := WholeWalk(json, s, n.whole);
    var t1 := t0;
    if n.fraction != [] {
      if n.whole > LONG_MAX {
        PointHere(json, t0.ptr, n.fraction);
        TooLarge(json, t0);
        return t0;
      }
      t1 := FractionWalk(json, t0, n.fraction);
      SameTwice(s, t0, t1);
    }
    t := t1;
    if n.power != [] {
      t := PowerWalk(json, t1, n.mark, n.power);
      SameTwice(s, t1, t);
    }
  }

  lemma NumberParts(json: Text, p: int, n: Numeral, w: Text, f: Text, e: Text)
    requires w == Digits(n.whole) && f == (if n.fraction == [] then [] else [46] + n.fraction)
    requires e == (if n.power == [] then [] else n.mark + n.power) && Here(json, p, Unsigned(n))
    ensures Here(json, p, w) && Here(json, p + |w|, f) && Here(json, p + |w| + |f|, e)
    ensures |Unsigned(n)| == |w| + |f| + |e|
  {
    hide Here, Digits;
    UnsignedText(n, w, f, e);
    HereSplit(json, p, w + f, e);
    HereSplit(json, p, w, f);
  }

  lemma UnsignedText(n: Numeral, w: Text, f: Text, e: Text)
    requires w == Digits(n.whole) && f == (if n.fraction == [] then [] else [46] + n.fraction)
    requires e == if n.power == [] then [] else n.mark + n.power
    ensures Unsigned(n) == w + f + e
  {
    hide Digits;
    assert [] + w == w;
  }

  lemma PointHere(json: Text, p: int, d: Text)
    requires Here(json, p, [46] + d)
    ensures ByteAt(json, p) == 46
  {
    HereSplit(json, p, [46], d);
    HereAt(json, p, [46], 0);
  }

  /** All that belongs to the number is skipped by the second pass. */
  lemma {:induction false} Skipped(json: Text, p: int, t: Text)
    requires Here(json, p, t) && !NumChar(ByteAt(json, p + |t|)) && forall i | 0 <= i < |t| :: NumChar(t[i])
    ensures SkipNumber(json, p) == p + |t|
    decreases |t|
  {
    if t != [] {
      HereAt(json, p, t, 0);
      assert t == [t[0]] + t[1..];
      HereSplit(json, p, [t[0]], t[1..]);
      Skipped(json, p + 1, t[1..]);
    }
  }

  lemma NumberChars(n: Numeral)
    requires ValidNumber(n)
    ensures forall i | 0 <= i < |Unsigned(n)| :: NumChar(Unsigned(n)[i])
  {
  }
}
