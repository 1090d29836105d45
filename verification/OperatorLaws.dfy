/**
 What the operators of expressions and the built-ins that choose among their
 arguments are for (src/expr.c, src/funcs.c): laws between them, and accounts by
 index, that do not speak of how they are computed.
 */
module OperatorLaws {
  import opened Bytes
  import opened Expr
  import opened Operators
  import opened ExprEval

  /** Values as they come about: ints of 32 bits, days from 1990 on, minutes of one day. */
  predicate Proper(v: Value) {
    match v
    case Int(n) => InInt(n)
    case Date(n) => 0 <= n <= Operators.INT_MAX
    case DateTime(n) => 0 <= n <= Operators.INT_MAX
    case Time(n) => 0 <= n < MINUTES_PER_DAY
    case Str(_) => true
  }

  // ----- Sums and differences -----

  /** Taking away what was added: an int or a time from anything, and a day from a later day. */
  lemma SumUndone(f: Format, a: Value, b: Value)
    requires Proper(a) && Proper(b) && !a.Str? && !b.Str? && Sum(f, a, b).Val?
    ensures var s := Sum(f, a, b).v;
            && Proper(s) && Sum(f, b, a) == Val(s)
            && (b.Int? || (a.DateTime? && b.Time?) ==> Difference(s, b) == Val(a))
            && (b.Int? && SameType(s, a) ==> Difference(s, a) == Val(b) || s.Time?)
  {
  }

  /** Adding what was found between: days between dates, minutes between moments. */
  lemma DifferenceUndone(f: Format, a: Value, b: Value)
    requires Proper(a) && Proper(b) && SameType(a, b) && !a.Str? && !a.Time? && Difference(a, b).Val?
    ensures var d := Difference(a, b).v; d.Int? && Sum(f, b, d) == Val(a)
  {
  }

  /** Between two times there is less than a day, and adding it leads from one to the other. */
  lemma TimesApart(f: Format, a: Value, b: Value)
    requires Proper(a) && Proper(b) && a.Time? && b.Time?
    ensures var d := Difference(a, b);
            && d.Val? && d.v.Int? && -MINUTES_PER_DAY < d.v.v < MINUTES_PER_DAY && Sum(f, b, d.v) == Val(a)
  {
  }

  /** Nothing added is nothing changed; one more added is the next one. */
  lemma SumSteps(f: Format, a: Value, n: int)
    requires Proper(a) && !a.Str? && 0 <= n < Operators.INT_MAX
    ensures Sum(f, a, Int(0)) == Val(a)
    ensures var s, t := Sum(f, a, Int(n)), Sum(f, a, Int(n + 1));
            t.Val? ==>
              && s.Val? && SameType(s.v, a) && SameType(t.v, a)
              && Number(t.v) == (if a.Time? && Number(s.v) == MINUTES_PER_DAY - 1 then 0 else Number(s.v) + 1)
  {
  }

  /** Sums of ints fail exactly if they do not fit into 32 bits; days before 1990 are refused. */
  lemma SumFits(f: Format, a: Value, b: Value)
    requires Proper(a) && Proper(b) && b.Int? && !a.Str?
    ensures Sum(f, a, b).Val? <==> InInt(Number(a) + b.v) && (a.Date? || a.DateTime? ==> Number(a) + b.v >= 0)
    ensures Difference(a, b).Val? <==>
              a.Time? || (InInt(Number(a) - b.v) && (a.Date? || a.DateTime? ==> Number(a) - b.v >= 0))
  {
  }

  /** A sum with a string has both in it, one behind the other, unless it would be too long. */
  lemma Joined(f: Format, a: Value, b: Value)
    requires a.Str? || b.Str?
    ensures var x, y := f.toStr(a), f.toStr(b);
            if f.maxStringLen > 0 && |x| + |y| > f.maxStringLen then Sum(f, a, b) == Err(E_STRING_TOO_LONG)
            else
              var s := Sum(f, a, b);
              && s.Val? && s.v.Str? && |s.v.s| == |x| + |y| && s.v.s[..|x|] == x && s.v.s[|x|..] == y
  {
  }

  // ----- Comparisons -----

  predicate Holds(op: BinOp, a: Value, b: Value) {
    Compare(op, a, b) == Val(Int(1))
  }

  /**
   A comparison of values of one kind is 0 or 1; of less, equal and greater exactly
   one holds, and the other three are their negations.
   */
  lemma Trichotomy(a: Value, b: Value)
    requires SameType(a, b)
    ensures forall op | op in {Lt, Eq, Gt, Le, Ge, Ne} :: Compare(op, a, b) in {Val(Int(0)), Val(Int(1))}
    ensures (Holds(Lt, a, b) && !Holds(Eq, a, b) && !Holds(Gt, a, b))
         || (!Holds(Lt, a, b) && Holds(Eq, a, b) && !Holds(Gt, a, b))
         || (!Holds(Lt, a, b) && !Holds(Eq, a, b) && Holds(Gt, a, b))
    ensures Holds(Le, a, b) <==> !Holds(Gt, a, b)
    ensures Holds(Ge, a, b) <==> !Holds(Lt, a, b)
    ensures Holds(Ne, a, b) <==> !Holds(Eq, a, b)
    ensures Holds(Gt, a, b) <==> Holds(Lt, b, a)
    ensures Holds(Eq, a, b) <==> a == b
  {
    if a.Str? {
      StrTotal(a.s, b.s);
    }
  }

  /** Numbers, days and times compare as the sign of their difference says. */
  lemma ComparedByDifference(a: Value, b: Value)
    requires SameType(a, b) && !a.Str? && Difference(a, b).Val?
    ensures !a.Time? && Proper(a) && Proper(b) ==>
              var d := Difference(a, b).v;
              && d.Int? && (Holds(Lt, a, b) <==> d.v < 0)
              && (Holds(Eq, a, b) <==> d.v == 0) && (Holds(Gt, a, b) <==> d.v > 0)
    ensures a.Time? ==> (Holds(Lt, a, b) <==> Difference(a, b).v.v < 0)
  {
  }

  /** Values of different kinds are not equal, and cannot be put in order. */
  lemma DifferentKinds(op: BinOp, a: Value, b: Value)
    requires !SameType(a, b) && op in {Lt, Eq, Gt, Le, Ge, Ne}
    ensures Compare(op, a, b) == if op == Eq then Val(Int(0)) else if op == Ne then Val(Int(1)) else Err(E_BAD_TYPE)
  {
  }

  /** Strings are in the order of a dictionary: by the first byte in which they differ, and the shorter first. */
  lemma {:induction false} Dictionary(a: Text, b: Text)
    ensures StrLess(a, b) <==>
              exists k :: 0 <= k <= |a| && k < |b| && a[..k] == b[..k] && (k == |a| || a[k] < b[k])
  {
    if a != [] && b != [] {
      Dictionary(a[1..], b[1..]);
      if a[0] == b[0] && StrLess(a[1..], b[1..]) {
        var k :| && 0 <= k <= |a| - 1 && k < |b| - 1 && a[1..][..k] == b[1..][..k]
                 && (k == |a| - 1 || a[1..][k] < b[1..][k]);
        assert a[..k + 1] == [a[0]] + a[1..][..k] && b[..k + 1] == [b[0]] + b[1..][..k];
        assert 0 <= k + 1 <= |a|;
      } else if a[0] < b[0] {
        assert a[..0] == b[..0];
      }
      if k :| 0 <= k <= |a| && k < |b| && a[..k] == b[..k] && (k == |a| || a[k] < b[k]) {
        if k > 0 {
          assert a[0] == a[..k][0] == b[..k][0] == b[0];
          assert a[1..][..k - 1] == a[..k][1..] == b[..k][1..] == b[1..][..k - 1];
          assert 0 <= k - 1 <= |a[1..]|;
        }
      }
    } else if b != [] {
      assert a[..0] == b[..0];
    }
  }

  lemma {:induction false} StrTotal(a: Text, b: Text)
    ensures !(StrLess(a, b) && StrLess(b, a)) && (StrLess(a, b) || StrLess(b, a) || a == b)
    ensures a == b ==> !StrLess(a, b)
  {
    if a != [] && b != [] {
      StrTotal(a[1..], b[1..]);
      if a[0] == b[0] && a[1..] == b[1..] {
        assert a == [a[0]] + a[1..] && b == [b[0]] + b[1..];
      }
    }
  }

  lemma {:induction false} StrTransitive(a: Text, b: Text, c: Text)
    requires StrLess(a, b) && StrLess(b, c)
    ensures StrLess(a, c)
  {
    if a != [] && a[0] == b[0] == c[0] {
      StrTransitive(a[1..], b[1..], c[1..]);
    }
  }

  // ----- Products and quotients -----

  /** Products of ints: as in arithmetic, if they fit. */
  lemma Products(f: Format, a: int, b: int)
    requires InInt(a) && InInt(b)
    ensures Product(f, Int(a), Int(b)) == Product(f, Int(b), Int(a))
    ensures Product(f, Int(a), Int(1)) == Val(Int(a)) && Product(f, Int(a), Int(0)) == Val(Int(0))
    ensures var p, q := Product(f, Int(a), Int(b)), Product(f, Int(a), Int(b + 1));
            p.Val? && q.Val? ==> Sum(f, p.v, Int(a)) == q
    ensures Product(f, Int(a), Int(b)).Val? <==> InInt(a * b)
  {
    assert a * b == b * a && a * (b + 1) == a * b + a;
  }

  /** Quotient and remainder: the remainder is smaller than the divisor, and has the sign of the dividend. */
  lemma Quotients(a: int, b: int)
    requires InInt(a) && InInt(b)
    ensures b == 0 ==> Division(Div, Int(a), Int(b)) == Division(Mod, Int(a), Int(b)) == Err(E_DIV_ZERO)
    ensures b == -1 && a == INT_MIN ==> Division(Div, Int(a), Int(b)) == Division(Mod, Int(a), Int(b)) == Err(E_2HIGH)
    ensures b != 0 && !(b == -1 && a == INT_MIN) ==>
              var q, r := Division(Div, Int(a), Int(b)), Division(Mod, Int(a), Int(b));
              && q.Val? && r.Val? && q.v.Int? && r.v.Int? && InInt(q.v.v) && InInt(r.v.v)
              && a == b * q.v.v + r.v.v && Abs(r.v.v) < Abs(b) && (r.v.v > 0 ==> a > 0) && (r.v.v < 0 ==> a < 0)
  {
    if b != 0 && !(b == -1 && a == INT_MIN) {
      QuotientParts(a, b);
    }
  }

  lemma QuotientParts(a: int, b: int)
    requires InInt(a) && InInt(b) && b != 0 && !(b == -1 && a == INT_MIN)
    ensures var q := Quotient(a, b); var r := a - b * q;
            InInt(q) && InInt(r) && Abs(r) < Abs(b) && (r > 0 ==> a > 0) && (r < 0 ==> a < 0)
  {
    hide Quotient, Abs;
    AbsPositive(b);
    Divided(Abs(a), Abs(b));
    QuotientTimes(a, b);
    QuotientFits(a, b);
    RestParts(a, b, b * Quotient(a, b), Abs(b) * (Abs(a) / Abs(b)), Abs(a) % Abs(b));
  }

  lemma AbsPositive(b: int)
    ensures b != 0 ==> Abs(b) > 0
  {
  }

  lemma RestParts(a: int, b: int, p: int, p0: int, r0: int)
    requires p0 >= 0 && p == (if a < 0 then -p0 else p0) && Abs(a) == p0 + r0 && 0 <= r0 < Abs(b) && InInt(b)
    ensures InInt(a - p) && Abs(a - p) < Abs(b) && (a - p > 0 ==> a > 0) && (a - p < 0 ==> a < 0)
  {
  }

  lemma QuotientTimes(a: int, b: int)
    requires b != 0
    ensures b * Quotient(a, b) == if a < 0 then -(Abs(b) * (Abs(a) / Abs(b))) else Abs(b) * (Abs(a) / Abs(b))
  {
    var q: int := Abs(a) / Abs(b);
    Signs(b, q);
    Signs(b, 0 - q);
    assert Quotient(a, b) == if (a < 0) == (b < 0) then q else 0 - q;
  }

  lemma QuotientFits(a: int, b: int)
    requires InInt(a) && InInt(b) && b != 0 && !(b == -1 && a == INT_MIN)
    ensures InInt(Quotient(a, b))
  {
    Divided(Abs(a), Abs(b));
  }

  lemma Signs(b: int, q: int)
    ensures b * (0 - q) == -(b * q) && b * q == (if b < 0 then -(Abs(b) * q) else Abs(b) * q)
  {
    assert b * q == -((0 - b) * q);
  }

  lemma Divided(m: nat, n: nat)
    requires n > 0
    ensures m == n * (m / n) + m % n && 0 <= m % n < n && n * (m / n) >= 0
    ensures m / n <= m && (n > 1 && m > 0 ==> m / n < m)
  {
    var q := m / n;
    MulGrows(q, n);
    if n > 1 {
      MulGrows(q, n - 1);
      assert n * q == (n - 1) * q + q;
    }
  }

  lemma MulGrows(a: nat, k: nat)
    requires k >= 1
    ensures k * a >= a
  {
    MulNat(k - 1, a);
    assert k * a == (k - 1) * a + a;
  }

  lemma MulNat(a: nat, b: nat)
    ensures a * b >= 0
  {
  }

  /** Multiples of a number, other than 0, are as large as it. */
  lemma MultipleLarge(n: nat, k: int)
    requires k != 0
    ensures Abs(n * k) >= n
  {
    if k > 0 {
      MulGrows(n, k);
      assert n * k == k * n;
    } else {
      MulGrows(n, 0 - k);
      assert n * k == -((0 - k) * n);
    }
  }

  /** Division has one answer only. */
  lemma QuotientUnique(a: int, b: int, q: int, r: int, q': int, r': int)
    requires b != 0 && a == b * q + r == b * q' + r' && Abs(r) < Abs(b) && Abs(r') < Abs(b)
    requires (r > 0 ==> a > 0) && (r < 0 ==> a < 0) && (r' > 0 ==> a > 0) && (r' < 0 ==> a < 0)
    ensures q == q' && r == r'
  {
    hide Abs;
    Apart(b, q, q');
    Near(a, b, r, r');
    TooSmall(b, q - q', r' - r);
  }

  lemma Apart(b: int, q: int, q': int)
    ensures b * (q - q') == b * q - b * q'
  {
  }

  lemma Near(a: int, b: int, r: int, r': int)
    requires Abs(r) < Abs(b) && Abs(r') < Abs(b)
    requires (r > 0 ==> a > 0) && (r < 0 ==> a < 0) && (r' > 0 ==> a > 0) && (r' < 0 ==> a < 0)
    ensures Abs(r' - r) < Abs(b)
  {
  }

  lemma TooSmall(b: int, k: int, d: int)
    requires b * k == d && Abs(d) < Abs(b)
    ensures k == 0 && d == 0
  {
    Signs(b, k);
    if k != 0 {
      MultipleLarge(Abs(b), k);
    }
  }

  /** A number times a string is the string over and over again. */
  lemma Repetition(f: Format, n: int, s: Text)
    ensures Product(f, Int(n), Str(s)) == Product(f, Str(s), Int(n))
    ensures n < 0 ==> Product(f, Int(n), Str(s)) == Err(E_2LOW)
    ensures n >= 0 ==>
              var p := Product(f, Int(n), Str(s));
              if n > 0 && s != [] && (|s| * n >= INT_MAX || (f.maxStringLen > 0 && |s| * n > f.maxStringLen))
              then p == Err(E_STRING_TOO_LONG)
              else
                && p.Val? && p.v.Str? && |p.v.s| == |s| * n
                && forall i | 0 <= i < |s| * n :: p.v.s[i] == OverAndOver(s, i)
  {
    if n >= 0 {
      RepeatedAt(s, n);
      if s == [] {
        assert |s| * n == 0;
      }
    }
  }

  /** The byte at place `i` of an endless repetition. */
  function OverAndOver(s: Text, i: int): Byte {
    if s == [] then 0 else s[i % |s|]
  }

  lemma {:induction false} RepeatedAt(s: Text, n: nat)
    ensures |Repeated(s, n)| == |s| * n
    ensures forall i | 0 <= i < |s| * n :: Repeated(s, n)[i] == OverAndOver(s, i)
    decreases n
  {
    if n == 0 {
      assert |s| * n == 0;
    } else {
      RepeatedAt(s, n - 1);
      var before, all := |s| * (n - 1), |s| * n;
      assert all == |s| + before;
      assert s == [] ==> all == 0;
      OnceMore(s, Repeated(s, n - 1), Repeated(s, n));
    }
  }

  lemma OnceMore(s: Text, t: Text, u: Text)
    requires u == s + t && forall i | 0 <= i < |t| :: t[i] == OverAndOver(s, i)
    ensures s != [] ==> forall i | 0 <= i < |u| :: u[i] == OverAndOver(s, i)
  {
    if s != [] {
      forall i | 0 <= i < |u|
        ensures u[i] == OverAndOver(s, i)
      {
        if i < |s| {
          Remainder(i, |s|, 0, i);
        } else {
          assert u[i] == t[i - |s|] == OverAndOver(s, i - |s|);
          OneLess(i, |s|);
        }
      }
    }
  }

  lemma OneLess(i: int, n: nat)
    requires i >= n > 0
    ensures (i - n) % n == i % n
  {
    var q, r := (i - n) / n, (i - n) % n;
    assert i == n * (q + 1) + r;
    Remainder(i, n, q + 1, r);
  }

  lemma Remainder(i: int, n: nat, q: int, r: int)
    requires n > 0 && i == n * q + r && 0 <= r < n
    ensures i % n == r
  {
    var k := q - i / n;
    assert n * k == i % n - r;
    if k != 0 {
      MultipleLarge(n, k);
    }
  }

  /** Two minuses are none, and two negations are the truth. */
  lemma Twice(v: Value)
    requires Proper(v)
    ensures v.Int? && v.v != INT_MIN ==> Negated(v).Val? && Negated(Negated(v).v) == Val(v)
    ensures v.Int? && v.v != INT_MIN ==> forall f :: Sum(f, v, Negated(v).v) == Val(Int(0))
    ensures !v.Int? ==> Negated(v) == Err(E_BAD_TYPE)
  {
  }

  /** Days cannot be added to days or to times, nor strings taken away. */
  lemma NoSuchOperation(f: Format, a: Value, b: Value)
    ensures a.Date? && (b.Date? || b.Time? || b.DateTime?) ==> Sum(f, a, b) == Sum(f, b, a) == Err(E_BAD_TYPE)
    ensures a.DateTime? && b.DateTime? ==> Sum(f, a, b) == Err(E_BAD_TYPE)
    ensures a.Str? || b.Str? ==> Difference(a, b) == Err(E_BAD_TYPE)
    ensures a.Int? && !b.Int? ==> Difference(a, b) == Err(E_BAD_TYPE)
    ensures !(a.Int? && b.Int?) ==> Division(Div, a, b) == Division(Mod, a, b) == Err(E_BAD_TYPE)
    ensures !a.Int? && !b.Int? ==> Product(f, a, b) == Err(E_BAD_TYPE)
  {
  }

  // ----- Choosing among arguments -----

  /** The state after the first `j` of the expressions. */
  function After(w: World, es: seq<Node>, locals: seq<Value>, m: Machine, j: nat): Machine
    requires j <= |es|
  {
    if j == 0 then m else Eval(w, es[j - 1], locals, After(w, es, locals, m, j - 1)).m
  }

  /** What expression `j` gives when all before it have been evaluated. */
  function Nth(w: World, es: seq<Node>, locals: seq<Value>, m: Machine, j: nat): Result
    requires j < |es|
  {
    Eval(w, es[j], locals, After(w, es, locals, m, j))
  }

  lemma {:induction false} AfterFirst(w: World, es: seq<Node>, locals: seq<Value>, m: Machine, j: nat)
    requires j < |es|
    ensures After(w, es[1..], locals, Eval(w, es[0], locals, m).m, j) == After(w, es, locals, m, j + 1)
    decreases j
  {
    hide Eval;
    if j > 0 {
      AfterFirst(w, es, locals, m, j - 1);
    } else {
      assert After(w, es, locals, m, 0) == m;
    }
  }

  lemma NthFirst(w: World, es: seq<Node>, locals: seq<Value>, m: Machine, j: nat)
    requires j + 1 < |es|
    ensures Nth(w, es[1..], locals, Eval(w, es[0], locals, m).m, j) == Nth(w, es, locals, m, j + 1)
  {
    hide Eval;
    AfterFirst(w, es, locals, m, j);
  }

  /** The conditions of iif(): every other argument. */
  function Conditions(args: seq<Node>): seq<Node> {
    if |args| < 2 then [] else [args[0]] + Conditions(args[2..])
  }

  lemma {:induction false} ConditionAt(args: seq<Node>, j: nat)
    requires 2 * j + 1 < |args|
    ensures j < |Conditions(args)| && Conditions(args)[j] == args[2 * j]
    decreases j
  {
    if j > 0 {
      ConditionAt(args[2..], j - 1);
    }
  }

  lemma {:induction false} ConditionsLength(args: seq<Node>)
    ensures |Conditions(args)| == |args| / 2
  {
    if |args| >= 2 {
      ConditionsLength(args[2..]);
    }
  }

  /** Condition `j` has been evaluated, and is not true. */
  predicate Failed(r: Result) {
    r.outcome.Val? && !Truthy(r.outcome.v)
  }

  /** iif() has the value of the argument behind its first true condition. */
  lemma {:induction false} IifTakes(w: World, args: seq<Node>, locals: seq<Value>, m: Machine, k: nat)
    requires |args| % 2 == 1 && 2 * k + 1 < |args| && k < |Conditions(args)|
    requires forall j | 0 <= j < k :: Failed(Nth(w, Conditions(args), locals, m, j))
    requires var r := Nth(w, Conditions(args), locals, m, k); r.outcome.Val? && Truthy(r.outcome.v)
    ensures EvalIif(w, args, locals, m) == Eval(w, args[2 * k + 1], locals, Nth(w, Conditions(args), locals, m, k).m)
    decreases k
  {
    hide Eval, Truthy, Nth;
    var cs := Conditions(args);
    FirstCondition(w, args, locals, m);
    if k > 0 {
      assert Failed(Nth(w, cs, locals, m, 0));
      var m' := Eval(w, args[0], locals, m).m;
      assert cs[1..] == Conditions(args[2..]);
      forall j | 0 <= j < k
        ensures Nth(w, Conditions(args[2..]), locals, m', j) == Nth(w, cs, locals, m, j + 1)
      {
        NthFirst(w, cs, locals, m, j);
      }
      IifTakes(w, args[2..], locals, m', k - 1);
    }
  }

  lemma FirstCondition(w: World, args: seq<Node>, locals: seq<Value>, m: Machine)
    requires |args| >= 2
    ensures Conditions(args) != [] && Conditions(args)[0] == args[0]
    ensures Nth(w, Conditions(args), locals, m, 0) == Eval(w, args[0], locals, m)
  {
    hide Eval;
  }

  /** If no condition is true it has the value of its last argument. */
  lemma {:induction false} IifElse(w: World, args: seq<Node>, locals: seq<Value>, m: Machine)
    requires |args| % 2 == 1 && forall j | 0 <= j < |Conditions(args)| :: Failed(Nth(w, Conditions(args), locals, m, j))
    ensures EvalIif(w, args, locals, m)
            == Eval(w, args[|args| - 1], locals, After(w, Conditions(args), locals, m, |Conditions(args)|))
    decreases args
  {
    hide Eval, Truthy, Nth;
    if |args| > 1 {
      var cs := Conditions(args);
      FirstCondition(w, args, locals, m);
      assert Failed(Nth(w, cs, locals, m, 0));
      var m' := Eval(w, args[0], locals, m).m;
      assert cs[1..] == Conditions(args[2..]);
      forall j | 0 <= j < |cs| - 1
        ensures Nth(w, Conditions(args[2..]), locals, m', j) == Nth(w, cs, locals, m, j + 1)
      {
        NthFirst(w, cs, locals, m, j);
      }
      AfterFirst(w, cs, locals, m, |cs| - 1);
      IifElse(w, args[2..], locals, m');
    }
  }

  /** isany() is 1 at the first later value that equals the first. */
  lemma IsAnyFinds(w: World, args: seq<Node>, locals: seq<Value>, m: Machine, k: nat)
    requires 1 <= k < |args| && forall j | 0 <= j <= k :: Nth(w, args, locals, m, j).outcome.Val?
    requires var v := Nth(w, args, locals, m, 0).outcome;
             Nth(w, args, locals, m, k).outcome == v && forall j | 0 < j < k :: Nth(w, args, locals, m, j).outcome != v
    ensures EvalLazy(w, IsAny, args, locals, m) == Result(Bool(true), Nth(w, args, locals, m, k).m)
  {
    hide Eval, Nth;
    FirstNth(w, args, locals, m);
    var m' := Nth(w, args, locals, m, 0).m;
    forall j | 0 <= j < k
      ensures Nth(w, args[1..], locals, m', j) == Nth(w, args, locals, m, j + 1)
    {
      NthFirst(w, args, locals, m, j);
    }
    AnyOf(w, Nth(w, args, locals, m, 0).outcome.v, args[1..], locals, m', k - 1);
  }

  /** It is 0 if none does. */
  lemma IsAnyFindsNone(w: World, args: seq<Node>, locals: seq<Value>, m: Machine)
    requires |args| >= 1 && forall j | 0 <= j < |args| :: Nth(w, args, locals, m, j).outcome.Val?
    requires forall j | 0 < j < |args| :: Nth(w, args, locals, m, j).outcome != Nth(w, args, locals, m, 0).outcome
    ensures EvalLazy(w, IsAny, args, locals, m).outcome == Bool(false)
  {
    hide Eval, Nth;
    FirstNth(w, args, locals, m);
    var m' := Nth(w, args, locals, m, 0).m;
    forall j | 0 <= j < |args| - 1
      ensures Nth(w, args[1..], locals, m', j) == Nth(w, args, locals, m, j + 1)
    {
      NthFirst(w, args, locals, m, j);
    }
    NoneOf(w, Nth(w, args, locals, m, 0).outcome.v, args[1..], locals, m');
  }

  lemma FirstNth(w: World, args: seq<Node>, locals: seq<Value>, m: Machine)
    requires args != []
    ensures Nth(w, args, locals, m, 0) == Eval(w, args[0], locals, m)
  {
    hide Eval;
  }

  lemma {:induction false} AnyOf(w: World, v: Value, args: seq<Node>, locals: seq<Value>, m: Machine, k: nat)
    requires k < |args| && forall j | 0 <= j <= k :: Nth(w, args, locals, m, j).outcome.Val?
    requires Nth(w, args, locals, m, k).outcome == Val(v)
    requires forall j | 0 <= j < k :: Nth(w, args, locals, m, j).outcome != Val(v)
    ensures EvalIsAny(w, v, args, locals, m) == Result(Bool(true), Nth(w, args, locals, m, k).m)
    decreases k
  {
    hide Eval, Nth;
    FirstNth(w, args, locals, m);
    assert Nth(w, args, locals, m, 0).outcome.Val?;
    if k > 0 {
      var m' := Nth(w, args, locals, m, 0).m;
      forall j | 0 <= j < k
        ensures Nth(w, args[1..], locals, m', j) == Nth(w, args, locals, m, j + 1)
      {
        NthFirst(w, args, locals, m, j);
      }
      AnyOf(w, v, args[1..], locals, m', k - 1);
    }
  }

  lemma {:induction false} NoneOf(w: World, v: Value, args: seq<Node>, locals: seq<Value>, m: Machine)
    requires forall j | 0 <= j < |args| :: Nth(w, args, locals, m, j).outcome.Val?
    requires forall j | 0 <= j < |args| :: Nth(w, args, locals, m, j).outcome != Val(v)
    ensures EvalIsAny(w, v, args, locals, m).outcome == Bool(false)
    decreases args
  {
    hide Eval, Nth;
    if args != [] {
      FirstNth(w, args, locals, m);
      var m' := Nth(w, args, locals, m, 0).m;
      forall j | 0 <= j < |args| - 1
        ensures Nth(w, args[1..], locals, m', j) == Nth(w, args, locals, m, j + 1)
      {
        NthFirst(w, args, locals, m, j);
      }
      NoneOf(w, v, args[1..], locals, m');
    }
  }

  /**
   choose(k, ...) is argument k, counted behind the first; it is the first of them
   below 1, and above their number the last.
   */
  lemma ChooseTakes(w: World, args: seq<Node>, locals: seq<Value>, m: Machine, k: int)
    requires |args| >= 2 && Eval(w, args[0], locals, m).outcome == Val(Int(k))
    ensures var m' := Eval(w, args[0], locals, m).m;
            var r := EvalLazy(w, Choose, args, locals, m);
            && (1 <= k < |args| ==> r == Eval(w, args[k], locals, m'))
            && (k < 1 ==> r == Eval(w, args[1], locals, m'))
            && (k >= |args| ==> r == Eval(w, args[|args| - 1], locals, m'))
  {
    hide Eval;
  }

  /** catch() fails only if its second argument does, and has the value of the first if there is one. */
  lemma CatchCatches(w: World, args: seq<Node>, locals: seq<Value>, m: Machine)
    requires |args| >= 2
    ensures var a := Eval(w, args[0], locals, m);
            var r := EvalLazy(w, Catch, args, locals, m);
            && (a.outcome.Val? ==> r.outcome == a.outcome && r.m.lastCatchError == a.m.lastCatchError)
            && (a.outcome.Err? ==> r == Eval(w, args[1], locals, a.m.(lastCatchError := a.outcome.code)))
  {
    hide Eval;
  }

  /** value() of a name is the variable of that name, or else its second argument. */
  lemma ValueIsVariable(w: World, name: Text, other: Node, locals: seq<Value>, m: Machine)
    requires !w.disabled && w.nodeLimit == 0
    ensures var r := EvalLazy(w, ValueOf, [Const(Str(name)), other], locals, m);
            var v := Eval(w, Var(name), locals, m);
            && EvalLazy(w, ValueOf, [Const(Str(name))], locals, m) == v
            && (v.outcome.Val? ==> r == v)
            && (v.outcome.Err? ==> r == Eval(w, other, locals, v.m.(nonconst := true)))
  {
  }

  /** A parameter has the value of its argument, whatever the others do. */
  lemma ParameterValue(w: World, f: Text, args: seq<Node>, locals: seq<Value>, m: Machine, i: nat)
    requires f in w.funcs && i < |args| == w.funcs[f].nargs && w.funcs[f].body == Local(i)
    requires !w.disabled && w.nodeLimit == 0 && m.level < MAX_RECURSION_LEVEL
    requires forall j | 0 <= j < |args| :: Nth(w, args, locals, m, j).outcome.Val?
    ensures EvalUser(w, User(f, args), locals, m).outcome == Nth(w, args, locals, m, i).outcome
  {
    hide Eval, Nth, EvalArgs;
    ArgsInOrder(w, args, locals, m);
    var a := EvalArgs(w, args, locals, m);
    LocalValue(w, i, a.vs, Entered(a.m, f, w.funcs[f]));
  }

  lemma LocalValue(w: World, i: nat, locals: seq<Value>, m: Machine)
    requires !w.disabled && w.nodeLimit == 0 && i < |locals|
    ensures Eval(w, Local(i), locals, m).outcome == Val(locals[i])
  {
  }

  lemma {:induction false} ArgsInOrder(w: World, args: seq<Node>, locals: seq<Value>, m: Machine)
    requires forall j | 0 <= j < |args| :: Nth(w, args, locals, m, j).outcome.Val?
    ensures var a := EvalArgs(w, args, locals, m);
            && a.Values? && |a.vs| == |args|
            && forall j | 0 <= j < |args| :: Nth(w, args, locals, m, j).outcome == Val(a.vs[j])
    decreases args
  {
    hide Eval, Nth;
    if args != [] {
      FirstNth(w, args, locals, m);
      var m' := Nth(w, args, locals, m, 0).m;
      forall j | 0 <= j < |args| - 1
        ensures Nth(w, args[1..], locals, m', j) == Nth(w, args, locals, m, j + 1)
      {
        NthFirst(w, args, locals, m, j);
      }
      ArgsInOrder(w, args[1..], locals, m');
      forall j | 0 < j < |args|
        ensures Nth(w, args, locals, m, j).outcome == Val(EvalArgs(w, args, locals, m).vs[j])
      {
        assert Nth(w, args[1..], locals, m', j - 1) == Nth(w, args, locals, m, j);
      }
    }
  }
}
