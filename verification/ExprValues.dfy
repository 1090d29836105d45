/**
 From the text of an expression to its value (src/expr.c): what literals and names
 stand for, which operator each sign is, and how operators are grouped.
 */
module ExprValues {
  import opened Bytes
  import opened Decimals
  import opened ExprLex
  import opened Expr
  import opened ExprParse
  import opened ExprRender
  import opened ExprSpell
  import opened ExprEval
  import Operators

  // ----- Literals -----

  lemma {:induction false} DecimalBack(z: nat, n: nat)
    ensures var t := Zeros(z) + Digits(n); AllDigits(t) && Decimal(t) == n
    decreases n, z
  {
    OnlyZeros(z);
    var t := Zeros(z) + Digits(n);
    if n >= 10 {
      DecimalBack(z, n / 10);
      assert t[..|t| - 1] == Zeros(z) + Digits(n / 10);
      assert t[|t| - 1] == n % 10 + 48;
    } else {
      assert t[..|t| - 1] == Zeros(z);
      ZerosAreNought(z);
      assert t[|t| - 1] == n + 48;
    }
  }

  lemma {:induction false} ZerosAreNought(z: nat)
    ensures AllDigits(Zeros(z)) && Decimal(Zeros(z)) == 0
  {
    OnlyZeros(z);
    if z > 0 {
      ZerosAreNought(z - 1);
      OnlyZeros(z - 1);
      assert Zeros(z)[..z - 1] == Zeros(z - 1);
    }
  }

  /** The parser's answer to a text of one token. */
  function ParseOne(names: Names, timeSep: Byte, t: Text, high: int): Res {
    var s := Spell([t]);
    ParseExpression(Ctx(s, timeSep, names), 0, high)
  }

  lemma OneLeaf(names: Names, timeSep: Byte, t: Text, high: int)
    requires Sensible(timeSep) && Operand(t, timeSep) && AtomToken(t) && MakeAtom(names, t).Good?
    ensures ParseOne(names, timeSep, t, high) == Parsed(MakeAtom(names, t).node, |Spell([t])|, Max(high, 7))
  {
    hide ParseExpression, Spell, MakeAtom, Operand;
    var e := Leaf(t);
    WrittenParsesBack(names, timeSep, e, high);
    assert Tokens(e, 0) == [t];
    assert Deepest(e, 6, 6) == Max(6, Deepest(e, 7, 7));
    assert Deepest(e, 4, 4) == Max(4, Max(5, Deepest(e, 6, 6)));
    assert Deepest(e, 3, 3) == Max(3, Deepest(e, 4, 4));
    assert Deepest(e, 1, 1) == Max(1, Max(2, Deepest(e, 3, 3)));
  }

  /** A number is worth what it says, with any zeros before it; unless it needs more than 31 bits. */
  lemma NumberParsed(names: Names, timeSep: Byte, z: nat, n: nat, high: int)
    requires Sensible(timeSep)
    ensures var t := Zeros(z) + Digits(n);
            if n <= 0x7fff_ffff
            then ParseOne(names, timeSep, t, high) == Parsed(Const(Int(n)), |t|, Max(high, 7))
            else t !in names.literals ==> MakeAtom(names, t) == NotGood(E_BAD_CONSTANT)
  {
    hide ParseOne, Decimal;
    var t := Zeros(z) + Digits(n);
    DecimalBack(z, n);
    assert Digit(t[0]);
    if n <= 0x7fff_ffff {
      DigitsAreWords(t, timeSep);
      OneLeaf(names, timeSep, t, high);
    }
  }

  lemma DigitsAreWords(t: Text, timeSep: Byte)
    requires t != [] && AllDigits(t)
    ensures Operand(t, timeSep) && AtomToken(t) && Spelled(t) == t
  {
    assert forall i | 0 <= i < |t| :: Digit(t[i]);
  }

  /** A string is worth its bytes, whatever escapes it takes to write them. */
  lemma StringParsed(names: Names, timeSep: Byte, u: Text, high: int)
    requires Sensible(timeSep) && NulFree(u)
    ensures var t := [QUOTE] + u + [QUOTE];
            ParseOne(names, timeSep, t, high) == Parsed(Const(Str(u)), |Spell([t])|, Max(high, 7))
  {
    hide ParseOne, Spell;
    var t := [QUOTE] + u + [QUOTE];
    assert t[1..|t| - 1] == u;
    OneLeaf(names, timeSep, t, high);
  }

  /** Names are told apart by their first 64 characters, whatever their case. */
  predicate Alike(a: Text, b: Text) {
    && (|a| == |b| || (|a| >= 64 && |b| >= 64))
    && forall k | 0 <= k < |a| && k < 64 :: k < |b| && AlikeChar(a[k], b[k])
  }

  predicate AlikeChar(c: Byte, d: Byte) {
    c == d || (Alpha(c) && Alpha(d) && (d == c + 32 || c == d + 32))
  }

  lemma AlikeIsSame(a: Text, b: Text)
    ensures SameName(a, b) <==> Alike(a, b)
  {
    var x, y := Lower(Shortened(a)), Lower(Shortened(b));
    if Alike(a, b) {
      assert |x| == |y| && forall k | 0 <= k < |x| :: x[k] == y[k];
    }
    if x == y {
      forall k | 0 <= k < |a| && k < 64
        ensures k < |b| && AlikeChar(a[k], b[k])
      {
        assert x[k] == y[k];
      }
    }
  }

  /** A parameter is known by its index; any other name is that of a variable, and only 64 characters of it count. */
  lemma NameParsed(names: Names, timeSep: Byte, t: Text, high: int)
    requires Sensible(timeSep) && Name(t, timeSep) && t[|t| - 1] != 40
    ensures var r := ParseOne(names, timeSep, t, high);
            && r.Parsed? && r.pos == |t|
            && (forall i | 0 <= i < |names.locals| && Alike(t, names.locals[i]) ::
                  (forall j | 0 <= j < i :: !Alike(t, names.locals[j])) ==> r.node == Local(i))
            && ((forall i | 0 <= i < |names.locals| :: !Alike(t, names.locals[i])) ==>
                  r.node == Var(if |t| <= 64 then t else t[..64]))
  {
    hide ParseOne, Alike, SameName;
    OneLeaf(names, timeSep, t, high);
    assert t[0] != QUOTE && !Quoted(t);
    forall i | 0 <= i < |names.locals|
      ensures Alike(t, names.locals[i]) <==> SameName(t, names.locals[i])
    {
      AlikeIsSame(t, names.locals[i]);
    }
  }

  /** A name with a dollar sign is that of a system variable, or of nothing. */
  lemma SysVarParsed(names: Names, timeSep: Byte, name: Text, high: int)
    requires Sensible(timeSep) && SysName([36] + name)
    ensures if Lower(name) in names.sysVars
            then ParseOne(names, timeSep, [36] + name, high) == Parsed(SysVar(Lower(name)), 1 + |name|, Max(high, 7))
            else MakeAtom(names, [36] + name) == NotGood(E_NOSUCH_VAR)
  {
    hide ParseOne, Lower;
    var t := [36] + name;
    assert t[1..] == name && t[1] == name[0];
    if Lower(name) in names.sysVars {
      OneLeaf(names, timeSep, t, high);
      assert !Quoted(t);
    }
  }

  /** A function that is not built in is known by 64 characters of its name; neither is by the case of its letters. */
  lemma FunctionNamed(names: Names, name: Text, args: seq<Node>)
    ensures var n := Called(names, name, args);
            if Lower(name) in names.builtins then n == Builtin(Lower(name), args)
            else n.User? && n.args == args && |n.name| == (if |name| < 64 then |name| else 64) && Alike(n.name, name)
  {
  }

  // ----- Operators -----

  /** How each operator is written. */
  function Sign(op: BinOp): Text {
    match op
    case Or => [124, 124]
    case And => [38, 38]
    case Eq => [61, 61]
    case Ne => [33, 61]
    case Le => [60, 61]
    case Ge => [62, 61]
    case Lt => [60]
    case Gt => [62]
    case Add => [43]
    case Sub => [45]
    case Mul => [42]
    case Div => [47]
    case Mod => [37]
  }

  /** How strongly each binds its operands. */
  function Strength(op: BinOp): nat {
    if op == Or then 1
    else if op == And then 2
    else if op == Eq || op == Ne then 3
    else if op == Lt || op == Gt || op == Le || op == Ge then 4
    else if op == Add || op == Sub then 5
    else 6
  }

  lemma SignIsToken(op: BinOp)
    ensures Sign(op) == OpToken(op)
  {
  }

  lemma StrengthIsLevel(op: BinOp)
    ensures LevelOf(op) + 1 == Strength(op)
  {
  }

  predicate Atom(names: Names, timeSep: Byte, t: Text) {
    Operand(t, timeSep) && AtomToken(t) && MakeAtom(names, t).Good?
  }

  function NodeOf(names: Names, t: Text): Node
    requires t != [] && MakeAtom(names, t).Good?
  {
    MakeAtom(names, t).node
  }

  /** The tree of a whole text, or nothing. */
  datatype Tree = Tree(node: Node) | NoTree

  function TreeOf(names: Names, timeSep: Byte, toks: seq<Text>): Tree {
    var s := Spell(toks);
    match ParseExpression(Ctx(s, timeSep, names), 0, 0)
    case Parsed(n, pos, _) => if pos == |s| then Tree(n) else NoTree
    case Error(_, _) => NoTree
  }

  lemma ShallowTree(names: Names, timeSep: Byte, e: Ast)
    requires Sensible(timeSep) && Writing(e, timeSep) && WellFormed(names, e) && Deepest(e, 0, 0) <= 100
    ensures TreeOf(names, timeSep, Tokens(e, 0)) == Tree(Meaning(names, e))
  {
    hide ParseExpression, Spell, Tokens, Deepest, Meaning, WellFormed, Writing;
    WrittenParsesBack(names, timeSep, e, 0);
  }

  /** Of two operators the stronger takes its operands first, and of two of one strength the left one. */
  lemma Grouping(names: Names, timeSep: Byte, x: Text, a: BinOp, y: Text, b: BinOp, z: Text)
    requires Sensible(timeSep) && Atom(names, timeSep, x) && Atom(names, timeSep, y) && Atom(names, timeSep, z)
    ensures var nx, ny, nz := NodeOf(names, x), NodeOf(names, y), NodeOf(names, z);
            TreeOf(names, timeSep, [x, Sign(a), y, Sign(b), z])
            == Tree(if Strength(a) < Strength(b) then Bin(a, nx, Bin(b, ny, nz)) else Bin(b, Bin(a, nx, ny), nz))
  {
    hide MakeAtom, Operand, TreeOf, OpToken, Sign, Strength, Deepest, LevelOf;
    SignIsToken(a);
    SignIsToken(b);
    StrengthIsLevel(a);
    StrengthIsLevel(b);
    var ex, ey, ez := Leaf(x), Leaf(y), Leaf(z);
    if Strength(a) < Strength(b) {
      GroupRight(names, timeSep, ex, a, ey, b, ez);
    } else {
      GroupLeft(names, timeSep, ex, a, ey, b, ez);
    }
  }

  lemma LeafTokens(t: Text, k: nat)
    requires k <= 7
    ensures Tokens(Leaf(t), k) == [t]
  {
  }

  lemma OpTokens(op: BinOp, l: Ast, r: Ast, k: nat)
    requires k <= LevelOf(op)
    ensures Tokens(Op(op, l, r), k) == Tokens(l, LevelOf(op)) + ([OpToken(op)] + Tokens(r, LevelOf(op) + 1))
  {
    hide OpToken, LevelOf;
  }

  lemma GroupRight(names: Names, timeSep: Byte, x: Ast, a: BinOp, y: Ast, b: BinOp, z: Ast)
    requires Sensible(timeSep) && LevelOf(a) < LevelOf(b) && x.Leaf? && y.Leaf? && z.Leaf?
    requires Atom(names, timeSep, x.token) && Atom(names, timeSep, y.token) && Atom(names, timeSep, z.token)
    ensures var nx, ny, nz := NodeOf(names, x.token), NodeOf(names, y.token), NodeOf(names, z.token);
            TreeOf(names, timeSep, [x.token, OpToken(a), y.token, OpToken(b), z.token])
            == Tree(Bin(a, nx, Bin(b, ny, nz)))
  {
    hide MakeAtom, Operand, TreeOf, OpToken, LevelOf, Tokens, Deepest;
    var r := Op(b, y, z);
    var e := Op(a, x, r);
    OpTokens(a, x, r, 0);
    OpTokens(b, y, z, LevelOf(a) + 1);
    LeafTokens(x.token, LevelOf(a));
    LeafTokens(y.token, LevelOf(b));
    LeafTokens(z.token, LevelOf(b) + 1);
    assert Tokens(e, 0) == [x.token, OpToken(a), y.token, OpToken(b), z.token];
    SmallParts(names, timeSep, r, e);
    ShallowTree(names, timeSep, e);
  }

  lemma GroupLeft(names: Names, timeSep: Byte, x: Ast, a: BinOp, y: Ast, b: BinOp, z: Ast)
    requires Sensible(timeSep) && LevelOf(b) <= LevelOf(a) && x.Leaf? && y.Leaf? && z.Leaf?
    requires Atom(names, timeSep, x.token) && Atom(names, timeSep, y.token) && Atom(names, timeSep, z.token)
    ensures var nx, ny, nz := NodeOf(names, x.token), NodeOf(names, y.token), NodeOf(names, z.token);
            TreeOf(names, timeSep, [x.token, OpToken(a), y.token, OpToken(b), z.token])
            == Tree(Bin(b, Bin(a, nx, ny), nz))
  {
    hide MakeAtom, Operand, TreeOf, OpToken, LevelOf, Tokens, Deepest;
    var l := Op(a, x, y);
    var e := Op(b, l, z);
    OpTokens(b, l, z, 0);
    OpTokens(a, x, y, LevelOf(b));
    LeafTokens(x.token, LevelOf(a));
    LeafTokens(y.token, LevelOf(a) + 1);
    LeafTokens(z.token, LevelOf(b) + 1);
    assert Tokens(e, 0) == [x.token, OpToken(a), y.token, OpToken(b), z.token];
    SmallParts(names, timeSep, l, e);
    ShallowTree(names, timeSep, e);
  }

  predicate IsLeaf(names: Names, timeSep: Byte, e: Ast) {
    e.Leaf? && Atom(names, timeSep, e.token)
  }

  lemma SmallParts(names: Names, timeSep: Byte, inner: Ast, e: Ast)
    requires e.Op? && inner.Op? && (e.left == inner || e.right == inner)
    requires IsLeaf(names, timeSep, inner.left) && IsLeaf(names, timeSep, inner.right)
    requires IsLeaf(names, timeSep, if e.left == inner then e.right else e.left)
    ensures Writing(e, timeSep) && WellFormed(names, e) && Deepest(e, 0, 0) <= 100
    ensures WellFormed(names, e.left) && WellFormed(names, e.right) && WellFormed(names, inner)
    ensures Meaning(names, e) == Bin(e.op, Meaning(names, e.left), Meaning(names, e.right))
    ensures Meaning(names, inner) == Bin(inner.op, NodeOf(names, inner.left.token), NodeOf(names, inner.right.token))
  {
    hide MakeAtom, Operand, Deepest;
    assert Writing(inner, timeSep) && WellFormed(names, inner) && OnlyOps(inner) && Height(inner) == 1;
    DeepestSmall(e, 0, 0);
  }

  /** How many operators there are one in the other. */
  function Height(e: Ast): nat {
    match e
    case Op(_, l, r) => 1 + (if Height(l) < Height(r) then Height(r) else Height(l))
    case _ => 0
  }

  predicate OnlyOps(e: Ast) {
    match e
    case Op(_, l, r) => OnlyOps(l) && OnlyOps(r)
    case Leaf(_) => true
    case _ => false
  }

  lemma {:induction false} DeepestSmall(e: Ast, k: nat, level: int)
    requires k <= 7 && OnlyOps(e)
    ensures Deepest(e, k, level) <= level + 24 * Height(e) + (if Prec(e) < k then 15 else 7) - k
    decreases e, if Prec(e) < k then 20 else Prec(e) - k
  {
    if Prec(e) < k {
      DeepestSmall(e, 0, level + 8 - k);
    } else if Prec(e) > k {
      DeepestSmall(e, k + 1, level + 1);
    } else if e.Op? {
      DeepestSmall(e.left, k, level);
      DeepestSmall(e.right, k + 1, level + 1);
    }
  }

  // ----- Values -----

  /** The value of a text, where nothing forbids to evaluate it. */
  function ValueOf(w: World, names: Names, timeSep: Byte, toks: seq<Text>, m: Machine): Operators.Outcome {
    match TreeOf(names, timeSep, toks)
    case Tree(n) => Eval(w, n, [], m).outcome
    case NoTree => Operators.Err(Operators.E_SWERR)
  }

  lemma OneSign(names: Names, timeSep: Byte, op: BinOp, a: nat, b: nat)
    requires Sensible(timeSep) && a <= 0x7fff_ffff && b <= 0x7fff_ffff
    ensures TreeOf(names, timeSep, [Digits(a), Sign(op), Digits(b)]) == Tree(Bin(op, Const(Int(a)), Const(Int(b))))
  {
    hide TreeOf, Sign, OpToken, Digits, Deepest, LevelOf, Tokens, MakeAtom, Operand;
    SignIsToken(op);
    NumberAtom(names, timeSep, a);
    NumberAtom(names, timeSep, b);
    var l, r := Leaf(Digits(a)), Leaf(Digits(b));
    var e := Op(op, l, r);
    OpTokens(op, l, r, 0);
    LeafTokens(l.token, LevelOf(op));
    LeafTokens(r.token, LevelOf(op) + 1);
    assert Tokens(e, 0) == [l.token, OpToken(op), r.token];
    DeepestSmall(e, 0, 0);
    ShallowTree(names, timeSep, e);
  }

  lemma NumberAtom(names: Names, timeSep: Byte, n: nat)
    requires n <= 0x7fff_ffff
    ensures Atom(names, timeSep, Digits(n)) && NodeOf(names, Digits(n)) == Const(Int(n))
  {
    hide Decimal;
    DecimalBack(0, n);
    assert Zeros(0) + Digits(n) == Digits(n);
    DigitsAreWords(Digits(n), timeSep);
    assert Digit(Digits(n)[0]);
  }

  predicate Free(w: World) {
    !w.disabled && w.nodeLimit == 0
  }

  function Truth(b: bool): Operators.Outcome {
    Operators.Val(Int(if b then 1 else 0))
  }

  lemma TwoNumbers(w: World, op: BinOp, a: int, b: int, m: Machine)
    requires Free(w)
    ensures Eval(w, Bin(op, Const(Int(a)), Const(Int(b))), [], m).outcome
            == if (op == And && a == 0) || (op == Or && a != 0) then Operators.Val(Int(a))
               else if op == And || op == Or then Operators.Val(Int(b))
               else Operators.Binary(w.format, op, Int(a), Int(b))
  {
    hide Operators.Binary;
  }

  lemma ByItsSign(w: World, names: Names, timeSep: Byte, op: BinOp, a: nat, b: nat, m: Machine)
    requires Sensible(timeSep) && Free(w) && a <= 0x7fff_ffff && b <= 0x7fff_ffff && op != And && op != Or
    ensures ValueOf(w, names, timeSep, [Digits(a), Sign(op), Digits(b)], m)
            == Operators.Binary(w.format, op, Int(a), Int(b))
  {
    hide TreeOf, Eval, Digits, Operators.Binary, Sign;
    OneSign(names, timeSep, op, a, b);
    TwoNumbers(w, op, a, b, m);
  }

  /** What is written is what is calculated: sums and differences of numbers. */
  lemma Calculated(w: World, names: Names, timeSep: Byte, a: nat, b: nat, m: Machine)
    requires Sensible(timeSep) && Free(w) && a <= 0x7fff_ffff && b <= 0x7fff_ffff
    ensures ValueOf(w, names, timeSep, [Digits(a), [43], Digits(b)], m)
            == if a + b <= 0x7fff_ffff then Operators.Val(Int(a + b)) else Operators.Err(Operators.E_2HIGH)
    ensures ValueOf(w, names, timeSep, [Digits(a), [45], Digits(b)], m) == Operators.Val(Int(a - b))
  {
    hide ValueOf, Digits;
    ByItsSign(w, names, timeSep, Add, a, b, m);
    ByItsSign(w, names, timeSep, Sub, a, b, m);
  }

  /** Products, quotients and remainders. */
  lemma Multiplied(w: World, names: Names, timeSep: Byte, a: nat, b: nat, m: Machine)
    requires Sensible(timeSep) && Free(w) && a <= 0x7fff_ffff && b <= 0x7fff_ffff
    ensures ValueOf(w, names, timeSep, [Digits(a), [42], Digits(b)], m)
            == if a * b <= 0x7fff_ffff then Operators.Val(Int(a * b)) else Operators.Err(Operators.E_2HIGH)
    ensures ValueOf(w, names, timeSep, [Digits(a), [47], Digits(b)], m)
            == if b != 0 then Operators.Val(Int(a / b)) else Operators.Err(Operators.E_DIV_ZERO)
    ensures ValueOf(w, names, timeSep, [Digits(a), [37], Digits(b)], m)
            == if b != 0 then Operators.Val(Int(a % b)) else Operators.Err(Operators.E_DIV_ZERO)
  {
    hide ValueOf, Digits;
    ByItsSign(w, names, timeSep, Mul, a, b, m);
    ByItsSign(w, names, timeSep, Div, a, b, m);
    ByItsSign(w, names, timeSep, Mod, a, b, m);
    ProductSign(a, b);
    if b != 0 {
      assert a - b * (a / b) == a % b;
    }
  }

  lemma ProductSign(a: nat, b: nat)
    ensures a * b >= 0
  {
  }

  /** The six comparisons of numbers. */
  lemma Compared(w: World, names: Names, timeSep: Byte, a: nat, b: nat, m: Machine)
    requires Sensible(timeSep) && Free(w) && a <= 0x7fff_ffff && b <= 0x7fff_ffff
    ensures ValueOf(w, names, timeSep, [Digits(a), [61, 61], Digits(b)], m) == Truth(a == b)
    ensures ValueOf(w, names, timeSep, [Digits(a), [33, 61], Digits(b)], m) == Truth(a != b)
    ensures ValueOf(w, names, timeSep, [Digits(a), [60], Digits(b)], m) == Truth(a < b)
    ensures ValueOf(w, names, timeSep, [Digits(a), [62], Digits(b)], m) == Truth(a > b)
    ensures ValueOf(w, names, timeSep, [Digits(a), [60, 61], Digits(b)], m) == Truth(a <= b)
    ensures ValueOf(w, names, timeSep, [Digits(a), [62, 61], Digits(b)], m) == Truth(a >= b)
  {
    hide ValueOf, Digits;
    ByItsSign(w, names, timeSep, Eq, a, b, m);
    ByItsSign(w, names, timeSep, Ne, a, b, m);
    ByItsSign(w, names, timeSep, Lt, a, b, m);
    ByItsSign(w, names, timeSep, Gt, a, b, m);
    ByItsSign(w, names, timeSep, Le, a, b, m);
    ByItsSign(w, names, timeSep, Ge, a, b, m);
  }

  /** A sign before a number is applied to it at once. */
  lemma Signed(names: Names, timeSep: Byte, n: nat)
    requires Sensible(timeSep) && n <= 0x7fff_ffff
    ensures TreeOf(names, timeSep, [[45], Digits(n)]) == Tree(Const(Int(0 - n)))
    ensures TreeOf(names, timeSep, [[43], Digits(n)]) == Tree(Const(Int(n)))
    ensures TreeOf(names, timeSep, [[33], Digits(n)]) == Tree(Const(Int(if n == 0 then 1 else 0)))
  {
    hide TreeOf, Digits;
    OneUnary(names, timeSep, [45], n);
    OneUnary(names, timeSep, [43], n);
    OneUnary(names, timeSep, [33], n);
  }

  lemma OneUnary(names: Names, timeSep: Byte, op: Text, n: nat)
    requires Sensible(timeSep) && n <= 0x7fff_ffff && IsUnary(op)
    ensures TreeOf(names, timeSep, [op, Digits(n)]) == Tree(Unary(op, Const(Int(n))))
  {
    hide TreeOf, Digits, MakeAtom, Operand, IsUnary, Unary;
    NumberAtom(names, timeSep, n);
    var e := Pre(op, Leaf(Digits(n)));
    LeafTokens(Digits(n), 6);
    assert Tokens(e, 0) == [op] + Tokens(e.kid, 6);
    assert [op] + [Digits(n)] == [op, Digits(n)];
    UnaryDepth(op, Digits(n));
    assert WellFormed(names, e.kid) && Writing(e.kid, timeSep);
    ShallowTree(names, timeSep, e);
  }

  lemma UnaryDepth(op: Text, t: Text)
    ensures Deepest(Pre(op, Leaf(t)), 0, 0) <= 100
  {
    var e := Pre(op, Leaf(t));
    assert Deepest(Leaf(t), 6, 7) == 8;
    assert Deepest(e, 5, 5) == Max(5, Max(6, 8));
    assert Deepest(e, 3, 3) == Max(3, Max(4, Deepest(e, 5, 5)));
    assert Deepest(e, 1, 1) == Max(1, Max(2, Deepest(e, 3, 3)));
  }

  /** && and || have the value of the operand that decides. */
  lemma Decided(w: World, names: Names, timeSep: Byte, a: nat, b: nat, m: Machine)
    requires Sensible(timeSep) && Free(w) && a <= 0x7fff_ffff && b <= 0x7fff_ffff
    ensures ValueOf(w, names, timeSep, [Digits(a), [38, 38], Digits(b)], m)
            == Operators.Val(Int(if a == 0 then 0 else b))
    ensures ValueOf(w, names, timeSep, [Digits(a), [124, 124], Digits(b)], m)
            == Operators.Val(Int(if a != 0 then a else b))
  {
    hide TreeOf, Eval, Digits;
    OneSign(names, timeSep, And, a, b);
    OneSign(names, timeSep, Or, a, b);
    TwoNumbers(w, And, a, b, m);
    TwoNumbers(w, Or, a, b, m);
  }

  /** Nothing is false but zero, the empty string, the first day and midnight. */
  predicate IsFalse(v: Value) {
    v in {Int(0), Str([]), Date(0), Time(0), DateTime(0)}
  }

  lemma NotTruthy(v: Value)
    ensures Operators.Truthy(v) <==> !IsFalse(v)
  {
  }

  /** What && and || do not need they do not evaluate. */
  lemma ShortCut(w: World, op: BinOp, l: Node, r: Node, locals: seq<Value>, m: Machine)
    requires Free(w) && (op == And || op == Or)
    ensures var x := Eval(w, l, locals, m.(nodes := m.nodes + 1));
            Eval(w, Bin(op, l, r), locals, m)
            == if x.outcome.Err? || IsFalse(x.outcome.v) == (op == And) then x else Eval(w, r, locals, x.m)
  {
    hide IsFalse, Operators.Truthy, Eval;
    LogicStep(w, op, l, r, locals, m);
    var x := Eval(w, l, locals, m.(nodes := m.nodes + 1));
    if x.outcome.Val? {
      NotTruthy(x.outcome.v);
    }
  }

  lemma LogicStep(w: World, op: BinOp, l: Node, r: Node, locals: seq<Value>, m: Machine)
    requires Free(w) && (op == And || op == Or)
    ensures var x := Eval(w, l, locals, m.(nodes := m.nodes + 1));
            Eval(w, Bin(op, l, r), locals, m)
            == if x.outcome.Err? || Operators.Truthy(x.outcome.v) == (op == Or) then x else Eval(w, r, locals, x.m)
  {
    hide Operators.Truthy, Operators.Binary, EvalBuiltin, EvalUser, Restored, RefusedAtLimit;
  }
}
