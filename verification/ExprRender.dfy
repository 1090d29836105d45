/**
 Writing an expression down with the parentheses it needs, and parsing it again
 (src/expr.c).
 */
module ExprRender {
  import opened Bytes
  import opened ExprLex
  import opened Expr
  import opened ExprParse

  datatype Ast =
    | Leaf(token: Text)                        // a constant or a variable
    | Call(name: Text, args: seq<Ast>)
    | Pre(pre: Text, kid: Ast)                  // with the token of a unary operator
    | Op(op: BinOp, left: Ast, right: Ast)

  function LevelOf(op: BinOp): (k: nat)
    ensures k <= 5
  {
    match op
    case Or => 0
    case And => 1
    case Eq => 2
    case Ne => 2
    case Le => 3
    case Ge => 3
    case Lt => 3
    case Gt => 3
    case Add => 4
    case Sub => 4
    case _ => 5
  }

  function OpToken(op: BinOp): (t: Text)
    ensures IsOpAt(LevelOf(op), t) && OpAt(LevelOf(op), t) == op
  {
    match op
    case Or => [124, 124]
    case And => [38, 38]
    case Eq => [61, 61]
    case Ne => [33, 61]
    case Le => [60, 61]
    case Ge => [62, 61]
    case Lt => [60]
    case Gt => [62]
    case Add => [43]
    case Sub => [45]
    case Mul => [42]
    case Div => [47]
    case Mod => [37]
  }

  /** Binding strength: that of its operator, 6 for a unary one, 7 for what never needs parentheses. */
  function Prec(e: Ast): (k: nat)
    ensures k <= 7
  {
    match e
    case Op(op, _, _) => LevelOf(op)
    case Pre(_, _) => 6
    case _ => 7
  }

  predicate AtomToken(t: Text) {
    t != [] && (IdChar(t[0]) || t[0] == 36 || t[0] == QUOTE || t[0] == 39) && t[|t| - 1] != 40
  }

  ghost predicate WellFormed(names: Names, e: Ast) {
    match e
    case Leaf(t) => AtomToken(t) && MakeAtom(names, t).Good?
    case Call(name, args) =>
      name != [] && IdChar(name[0]) && !TooMany(names, name, |args|) && !TooFew(names, name, |args|)
      && forall i | 0 <= i < |args| :: WellFormed(names, args[i])
    case Pre(op, kid) => IsUnary(op) && WellFormed(names, kid)
    case Op(_, l, r) => WellFormed(names, l) && WellFormed(names, r)
  }

  /** The tree that stands for the expression: unary operators on integer constants are applied. */
  ghost function Meaning(names: Names, e: Ast): Node
    requires WellFormed(names, e)
  {
    match e
    case Leaf(t) => MakeAtom(names, t).node
    case Call(name, args) => Called(names, name, Meanings(names, args))
    case Pre(op, kid) => Unary(op, Meaning(names, kid))
    case Op(op, l, r) => Bin(op, Meaning(names, l), Meaning(names, r))
  }

  ghost function Meanings(names: Names, args: seq<Ast>): (r: seq<Node>)
    requires forall i | 0 <= i < |args| :: WellFormed(names, args[i])
    ensures |r| == |args|
  {
    if args == [] then [] else [Meaning(names, args[0])] + Meanings(names, args[1..])
  }

  /** The tokens of `e` where an expression of level `k` is wanted: in parentheses only if it binds less strongly. */
  function Tokens(e: Ast, k: nat): seq<Text>
    decreases e, if Prec(e) < k then 1 else 0
  {
    if Prec(e) < k then [LPAREN] + Tokens(e, 0) + [RPAREN]
    else
      match e
      case Leaf(t) => [t]
      case Call(name, args) => [name + [40]] + ArgTokens(args) + [RPAREN]
      case Pre(op, kid) => [op] + Tokens(kid, 6)
      case Op(op, l, r) => Tokens(l, LevelOf(op)) + ([OpToken(op)] + Tokens(r, LevelOf(op) + 1))
  }

  function ArgTokens(args: seq<Ast>): seq<Text> {
    if args == [] then []
    else if |args| == 1 then Tokens(args[0], 0)
    else Tokens(args[0], 0) + ([COMMA] + ArgTokens(args[1..]))
  }

  function Max(a: int, b: int): int {
    if a < b then b else a
  }

  /** The deepest level of the parser while it reads `e` as an expression of level `k` from level `level` on. */
  function Deepest(e: Ast, k: nat, level: int): (r: int)
    requires k <= 7
    ensures r >= level
    decreases e, if Prec(e) < k then 20 else Prec(e) - k
  {
    if Prec(e) < k then Deepest(e, 0, level + 8 - k)
    else if Prec(e) > k then Max(level, Deepest(e, k + 1, level + 1))
    else
      match e
      case Leaf(_) => level
      case Call(_, args) => DeepestArg(args, level + 2)
      case Pre(_, kid) => Max(level, Deepest(kid, 6, level + 1))
      case Op(_, l, r) => Max(Deepest(l, k, level), Deepest(r, k + 1, level + 1))
  }

  function DeepestArg(args: seq<Ast>, level: int): (r: int)
    ensures r >= level - 1
  {
    if args == [] then level - 1 else Max(Deepest(args[0], 0, level), DeepestArg(args[1..], level))
  }

  // ----- Tokens in the text -----

  /** The text from `pos` to `q` is these tokens, with any white space. */
  ghost predicate TokensAt(c: Ctx, pos: nat, toks: seq<Text>, q: nat)
    decreases |toks|
  {
    if toks == [] then pos == q
    else
      var t := Peek(c, pos);
      t.Token? && t.text == toks[0] && TokensAt(c, t.next, toks[1..], q)
  }

  lemma {:induction false} TokensSplit(c: Ctx, pos: nat, a: seq<Text>, b: seq<Text>, q: nat) returns (m: nat)
    requires TokensAt(c, pos, a + b, q) && pos <= |c.s|
    ensures TokensAt(c, pos, a, m) && TokensAt(c, m, b, q) && m <= |c.s|
    decreases |a|
  {
    if a == [] {
      assert a + b == b;
      m := pos;
    } else {
      assert (a + b)[1..] == a[1..] + b && (a + b)[0] == a[0];
      PeekInside(c, pos);
      m := TokensSplit(c, Peek(c, pos).next, a[1..], b, q);
    }
  }

  /** The token at `q` is not an operator of level `k` or of one that binds more strongly. */
  ghost predicate StopsAt(c: Ctx, q: nat, k: nat) {
    Peek(c, q).Token? && forall j | k <= j <= 5 :: !IsOpAt(j, Peek(c, q).text)
  }

  lemma OneLevel(t: Text, j: nat, k: nat)
    requires IsOpAt(j, t) && IsOpAt(k, t)
    ensures j == k
  {
  }

  predicate Begins(t: Text) {
    t != [] && t != RPAREN && t != COMMA
  }

  lemma {:induction false} FirstToken(names: Names, e: Ast, k: nat)
    requires WellFormed(names, e)
    ensures var toks := Tokens(e, k);
            toks != [] && Begins(toks[0]) && (k == 7 ==> !IsUnary(toks[0])) && (Prec(e) == 7 ==> !IsUnary(toks[0]))
    decreases e, k
  {
    if Prec(e) >= k {
      match e
      case Op(op, l, r) => FirstToken(names, l, LevelOf(op));
      case _ =>
    }
  }

  // ----- Parsing what was written -----

  function Stage(c: Ctx, k: nat, level: int, pos: nat, high: int): Res
    requires k <= 7 && pos <= |c.s|
  {
    if k <= 5 then ParseLevel(c, k, level, pos, high)
    else if k == 6 then ParseFactor(c, level, pos, high)
    else ParseAtom(c, level, pos, high)
  }

  function Rank(e: Ast, k: nat): int {
    if k > Prec(e) then 100 - 2 * k else 2 * (Prec(e) - k) + 4
  }

  /** What is asked of the text, for `e` to be read at level `k`. */
  ghost predicate Ready(c: Ctx, e: Ast, k: nat, level: int, pos: nat, q: nat) {
    && k <= 7 && pos <= |c.s| && q <= |c.s| && TokensAt(c, pos, Tokens(e, k), q)
    && WellFormed(c.names, e)
  }

  /** How deep the parser may go: what it has survived once it survives again. */
  function Limit(high: int): int {
    Max(MAX_PARSE_LEVEL, high)
  }

  /** The answer for a tree that takes the parser down to `deepest`. */
  function Outcome(n: Node, q: nat, high: int, deepest: int): Res {
    if deepest <= Limit(high) then Parsed(n, q, Max(high, deepest)) else Error(E_OP_STK_OVER, Limit(high) + 1)
  }

  /** One level too deep. */
  lemma Overflows(c: Ctx, k: nat, level: int, pos: nat, high: int)
    requires k <= 7 && pos <= |c.s| && level == Limit(high) + 1
    ensures Stage(c, k, level, pos, high) == Error(E_OP_STK_OVER, level)
  {
    hide Lex;
  }

  /**
   Writing down and parsing gives the tree back, and consumes exactly what was
   written; unless the parser would have to go too deep.
   */
  lemma {:induction false} ParsesBack(c: Ctx, e: Ast, k: nat, level: int, pos: nat, high: int, q: nat)
    requires Ready(c, e, k, level, pos, q) && (k <= 5 ==> StopsAt(c, q, k)) && level <= Limit(high) + 1
    ensures Stage(c, k, level, pos, high) == Outcome(Meaning(c.names, e), q, high, Deepest(e, k, level))
    decreases e, Rank(e, k) + 1
  {
    hide ParseLevel, ParseFactor, ParseAtom, Tokens, TokensAt, Deepest, Meaning, Peek, WellFormed, IsOpAt;
    if k <= 5 {
      ReachesRest(c, e, k, level, pos, high, q);
      if Deepest(e, k, level) <= Limit(high) {
        RestStops(c, k, level, Meaning(c.names, e), q, Max(high, Deepest(e, k, level)));
      }
    } else if k == 6 {
      FactorBack(c, e, level, pos, high, q);
    } else {
      AtomBack(c, e, level, pos, high, q);
    }
  }

  lemma RestStops(c: Ctx, k: nat, level: int, left: Node, q: nat, high: int)
    requires k <= 5 && q <= |c.s| && StopsAt(c, q, k)
    ensures Rest(c, k, level, left, q, high) == Parsed(left, q, high)
  {
    hide Lex, IsOpAt;
  }

  /** The loop over the operators of a level is reached with all of `e` as its left operand. */
  lemma {:induction false} ReachesRest(c: Ctx, e: Ast, k: nat, level: int, pos: nat, high: int, q: nat)
    requires k <= 5 && Ready(c, e, k, level, pos, q) && StopsAt(c, q, k + 1) && level <= Limit(high) + 1
    ensures var r := Outcome(Meaning(c.names, e), q, high, Deepest(e, k, level));
            ParseLevel(c, k, level, pos, high) == if r.Parsed? then Rest(c, k, level, r.node, q, r.high) else r
    decreases e, Rank(e, k)
  {
    hide ParseLevel, ParseFactor, ParseAtom, Rest, Tokens, TokensAt, Deepest, Meaning, Peek, WellFormed, IsOpAt,
         OpToken, LevelOf;
    if Prec(e) == k {
      var l, r, op := e.left, e.right, e.op;
      OpParts(c, e, k, level);
      var m := TokensSplit(c, pos, Tokens(l, k), [OpToken(op)] + Tokens(r, k + 1), q);
      var m1 := FirstOf(c, m, OpToken(op), Tokens(r, k + 1), q);
      StopsBefore(c, m, op, k);
      ReachesRest(c, l, k, level, pos, high, m);
      if Deepest(l, k, level) <= Limit(high) {
        var h1 := Max(high, Deepest(l, k, level));
        ParsesBack(c, r, k + 1, level + 1, m1, h1, q);
        RestGoesOn(c, k, level, Meaning(c.names, l), m, h1, op, m1, q);
      }
    } else {
      SameTokens(e, k, level);
      if level <= Limit(high) {
        ParsesBack(c, e, k + 1, level + 1, pos, Max(high, level), q);
        LevelDown(c, k, level, pos, high, q);
      } else {
        Overflows(c, k, level, pos, high);
      }
    }
  }

  lemma OpParts(c: Ctx, e: Ast, k: nat, level: int)
    requires k <= 5 && Prec(e) == k && WellFormed(c.names, e)
    ensures e.Op? && k == LevelOf(e.op)
    ensures Tokens(e, k) == Tokens(e.left, k) + ([OpToken(e.op)] + Tokens(e.right, k + 1))
    ensures WellFormed(c.names, e.left) && WellFormed(c.names, e.right)
    ensures Meaning(c.names, e) == Bin(e.op, Meaning(c.names, e.left), Meaning(c.names, e.right))
    ensures Deepest(e, k, level) == Max(Deepest(e.left, k, level), Deepest(e.right, k + 1, level + 1))
    ensures level <= Deepest(e.left, k, level)
  {
  }

  lemma FirstOf(c: Ctx, pos: nat, t: Text, rest: seq<Text>, q: nat) returns (next: nat)
    requires TokensAt(c, pos, [t] + rest, q) && pos <= |c.s|
    ensures Peek(c, pos) == Token(t, next) && TokensAt(c, next, rest, q) && next <= |c.s|
  {
    hide Peek;
    assert ([t] + rest)[1..] == rest;
    PeekInside(c, pos);
    next := Peek(c, pos).next;
  }

  lemma StopsBefore(c: Ctx, m: nat, op: BinOp, k: nat)
    requires k == LevelOf(op) && Peek(c, m).Token? && Peek(c, m).text == OpToken(op)
    ensures StopsAt(c, m, k + 1) && IsOpAt(k, OpToken(op)) && OpAt(k, OpToken(op)) == op
  {
    hide Peek;
    forall j | k + 1 <= j <= 5
      ensures !IsOpAt(j, Peek(c, m).text)
    {
      if IsOpAt(j, Peek(c, m).text) {
        OneLevel(Peek(c, m).text, j, k);
      }
    }
  }

  lemma RestGoesOn(c: Ctx, k: nat, level: int, left: Node, m: nat, h1: int, op: BinOp, m1: nat, q: nat)
    requires k <= 5 && k == LevelOf(op) && m <= |c.s| && m1 <= |c.s| && Peek(c, m) == Token(OpToken(op), m1)
    requires var r := Stage(c, k + 1, level + 1, m1, h1); (r.Parsed? ==> r.pos == q && q <= |c.s| && Peek(c, q).Token?)
    ensures var r := Stage(c, k + 1, level + 1, m1, h1);
            Rest(c, k, level, left, m, h1)
            == if r.Parsed? then Rest(c, k, level, Bin(op, left, r.node), q, r.high) else r
  {
    hide Lex, ParseLevel, ParseFactor, LevelOf, IsOpAt, OpAt;
    PeekInside(c, m);
  }

  lemma SameTokens(e: Ast, k: nat, level: int)
    requires k <= 6 && Prec(e) != k
    ensures Tokens(e, k) == Tokens(e, k + 1)
    ensures Deepest(e, k, level) == Max(level, Deepest(e, k + 1, level + 1)) && level <= Deepest(e, k, level)
  {
    if Prec(e) < k {
      assert level + 8 - k == (level + 1) + 8 - (k + 1);
    }
  }

  lemma LevelDown(c: Ctx, k: nat, level: int, pos: nat, high: int, q: nat)
    requires k <= 5 && pos <= |c.s| && level <= Limit(high)
    requires var r := Stage(c, k + 1, level + 1, pos, Max(high, level));
             (r.Parsed? ==> r.pos == q && q <= |c.s| && Peek(c, q).Token?)
    ensures var r := Stage(c, k + 1, level + 1, pos, Max(high, level));
            ParseLevel(c, k, level, pos, high) == if r.Parsed? then Rest(c, k, level, r.node, q, r.high) else r
  {
    hide Lex, ParseFactor, Rest;
  }

  lemma {:induction false} FactorBack(c: Ctx, e: Ast, level: int, pos: nat, high: int, q: nat)
    requires Ready(c, e, 6, level, pos, q) && level <= Limit(high) + 1
    ensures ParseFactor(c, level, pos, high) == Outcome(Meaning(c.names, e), q, high, Deepest(e, 6, level))
    decreases e, Rank(e, 6)
  {
    hide ParseLevel, ParseAtom, Tokens, TokensAt, Deepest, Meaning, Peek, WellFormed;
    if level > Limit(high) {
      DeepestFrom(e, 6, level);
      Overflows(c, 6, level, pos, high);
    } else if Prec(e) == 6 {
      PreParts(c, e, level);
      var next := FirstOf(c, pos, e.pre, Tokens(e.kid, 6), q);
      ParsesBack(c, e.kid, 6, level + 1, next, Max(high, level), q);
    } else {
      SameTokens(e, 6, level);
      FirstToken(c.names, e, 7);
      var toks := Tokens(e, 7);
      assert toks == [toks[0]] + toks[1..];
      var next := FirstOf(c, pos, toks[0], toks[1..], q);
      ParsesBack(c, e, 7, level + 1, pos, Max(high, level), q);
    }
  }

  lemma DeepestFrom(e: Ast, k: nat, level: int)
    requires k <= 7
    ensures level <= Deepest(e, k, level)
  {
  }

  lemma PreParts(c: Ctx, e: Ast, level: int)
    requires Prec(e) == 6 && WellFormed(c.names, e)
    ensures e.Pre? && IsUnary(e.pre) && Tokens(e, 6) == [e.pre] + Tokens(e.kid, 6) && WellFormed(c.names, e.kid)
    ensures Meaning(c.names, e) == Unary(e.pre, Meaning(c.names, e.kid))
    ensures Deepest(e, 6, level) == Max(level, Deepest(e.kid, 6, level + 1))
  {
  }

  lemma {:induction false} AtomBack(c: Ctx, e: Ast, level: int, pos: nat, high: int, q: nat)
    requires Ready(c, e, 7, level, pos, q) && level <= Limit(high) + 1
    ensures ParseAtom(c, level, pos, high) == Outcome(Meaning(c.names, e), q, high, Deepest(e, 7, level))
    decreases e, Rank(e, 7)
  {
    hide ParseLevel, ParseCall, TokensAt, Peek, MakeAtom;
    if level > Limit(high) {
      DeepestFrom(e, 7, level);
      Overflows(c, 7, level, pos, high);
    } else if Prec(e) < 7 {
      assert Tokens(e, 7) == [LPAREN] + (Tokens(e, 0) + [RPAREN]);
      var next := FirstOf(c, pos, LPAREN, Tokens(e, 0) + [RPAREN], q);
      var m := TokensSplit(c, next, Tokens(e, 0), [RPAREN], q);
      assert [RPAREN] == [RPAREN] + [];
      var q' := FirstOf(c, m, RPAREN, [], q);
      NothingLeft(c, q', q);
      ParsesBack(c, e, 0, level + 1, next, Max(high, level), m);
    } else if e.Leaf? {
      assert Tokens(e, 7) == [e.token] + [];
      var next := FirstOf(c, pos, e.token, [], q);
      NothingLeft(c, next, q);
    } else {
      assert Tokens(e, 7) == [e.name + [40]] + (ArgTokens(e.args) + [RPAREN]);
      var next := FirstOf(c, pos, e.name + [40], ArgTokens(e.args) + [RPAREN], q);
      assert (e.name + [40])[..|e.name|] == e.name;
      CallBack(c, e, level + 1, next, Max(high, level), q);
    }
  }

  lemma NothingLeft(c: Ctx, pos: nat, q: nat)
    requires TokensAt(c, pos, [], q)
    ensures pos == q
  {
  }

  lemma {:induction false} CallBack(c: Ctx, e: Ast, level: int, pos: nat, high: int, q: nat)
    requires e.Call? && WellFormed(c.names, e) && pos <= |c.s| && q <= |c.s| &&
             TokensAt(c, pos, ArgTokens(e.args) + [RPAREN], q)
    requires level <= Limit(high) + 1
    ensures ParseCall(c, level, e.name, pos, high)
            == Outcome(Meaning(c.names, e), q, high, DeepestArg(e.args, level + 1))
    decreases e, 1
  {
    hide ParseLevel, ParseArgs, TokensAt, Peek, ArgTokens;
    if level <= Limit(high) {
      ArgsBack(c, e, 0, level, [], pos, Max(high, level), q);
    }
    assert e.args[0..] == e.args;
    assert [] + Meanings(c.names, e.args) == Meanings(c.names, e.args);
  }

  /** The arguments from number `i` on. */
  lemma {:induction false} ArgsBack(c: Ctx, e: Ast, i: nat, level: int, done: seq<Node>, pos: nat, high: int, q: nat)
    requires e.Call? && WellFormed(c.names, e) && pos <= |c.s| && q <= |c.s| && i <= |e.args| && |done| == i
    requires i < |e.args| || i == 0
    requires TokensAt(c, pos, ArgTokens(e.args[i..]) + [RPAREN], q)
    requires level <= high
    ensures ParseArgs(c, level, e.name, done, pos, high)
            == Outcome(Called(c.names, e.name, done + Meanings(c.names, e.args[i..])), q, high,
                       DeepestArg(e.args[i..], level + 1))
    decreases e, 0, |e.args| - i, 1
  {
    hide ParseLevel, TokensAt, Peek, Called, Tokens, WellFormed, Meaning, Deepest;
    CallParts(c, e);
    var left := e.args[i..];
    if left != [] {
      ArgBack(c, e, i, level, done, pos, high, q);
    } else {
      assert ArgTokens(left) + [RPAREN] == [RPAREN] + [];
      var next := FirstOf(c, pos, RPAREN, [], q);
      NothingLeft(c, next, q);
      ArgsEmpty(c, e, level, done, pos, high, q);
      assert done + [] == done;
    }
  }

  lemma {:induction false} ArgBack(c: Ctx, e: Ast, i: nat, level: int, done: seq<Node>, pos: nat, high: int, q: nat)
    requires e.Call? && WellFormed(c.names, e) && pos <= |c.s| && q <= |c.s| && i < |e.args| && |done| == i
    requires TokensAt(c, pos, ArgTokens(e.args[i..]) + [RPAREN], q)
    requires level <= high
    ensures ParseArgs(c, level, e.name, done, pos, high)
            == Outcome(Called(c.names, e.name, done + Meanings(c.names, e.args[i..])), q, high,
                       DeepestArg(e.args[i..], level + 1))
    decreases e, 0, |e.args| - i, 0
  {
    hide ParseLevel, ParseArgs, TokensAt, Peek, Called, Tokens, ArgTokens, WellFormed, Meaning, Deepest;
    CallParts(c, e);
    var left := e.args[i..];
    var a, rest := e.args[i], e.args[i + 1..];
    assert left[0] == a && left[1..] == rest;
    var tail := (if rest == [] then [] else [COMMA] + ArgTokens(rest)) + [RPAREN];
    ArgTokensParts(left);
    assert ArgTokens(left) + [RPAREN] == Tokens(a, 0) + tail;
    var m := TokensSplit(c, pos, Tokens(a, 0), tail, q);
    FirstToken(c.names, a, 0);
    var toks := Tokens(a, 0);
    assert toks == [toks[0]] + toks[1..];
    var _ := FirstOf(c, pos, toks[0], toks[1..], m);
    var done' := done + [Meaning(c.names, a)];
    assert done + Meanings(c.names, left) == done' + Meanings(c.names, rest);
    var h := Max(high, Deepest(a, 0, level + 1));
    if Deepest(a, 0, level + 1) > Limit(high) {
      AfterArg(c, m, tail, q, rest);
      ParsesBack(c, a, 0, level + 1, pos, high, m);
      ArgFails(c, e, level, done, pos, high);
    } else if rest == [] {
      assert tail == [RPAREN] + [];
      var next := FirstOf(c, m, RPAREN, [], q);
      NothingLeft(c, next, q);
      PunctuationStops(c, m);
      ParsesBack(c, a, 0, level + 1, pos, high, m);
      LastArg(c, e, level, done, pos, high, Meaning(c.names, a), m, h, q);
      assert done' + [] == done';
    } else {
      assert tail == [COMMA] + (ArgTokens(rest) + [RPAREN]);
      var next := FirstOf(c, m, COMMA, ArgTokens(rest) + [RPAREN], q);
      PunctuationStops(c, m);
      ParsesBack(c, a, 0, level + 1, pos, high, m);
      FirstToken(c.names, e.args[i + 1], 0);
      ArgTokensParts(rest);
      var toks' := ArgTokens(rest) + [RPAREN];
      assert toks' == [toks'[0]] + toks'[1..];
      var _ := FirstOf(c, next, toks'[0], toks'[1..], q);
      NextArg(c, e, level, done, pos, high, Meaning(c.names, a), m, h, next);
      ArgsBack(c, e, i + 1, level, done', next, h, q);
    }
  }

  lemma CallParts(c: Ctx, e: Ast)
    requires e.Call? && WellFormed(c.names, e)
    ensures !TooMany(c.names, e.name, |e.args|) && !TooFew(c.names, e.name, |e.args|)
    ensures forall i | 0 <= i < |e.args| :: WellFormed(c.names, e.args[i])
  {
  }

  lemma ArgTokensParts(args: seq<Ast>)
    requires args != []
    ensures ArgTokens(args) == Tokens(args[0], 0) + (if |args| == 1 then [] else [COMMA] + ArgTokens(args[1..]))
  {
    hide Tokens;
  }

  lemma PunctuationStops(c: Ctx, m: nat)
    requires Peek(c, m).Token? && (Peek(c, m).text == RPAREN || Peek(c, m).text == COMMA)
    ensures StopsAt(c, m, 0)
  {
    hide Peek;
  }

  lemma ArgsEmpty(c: Ctx, e: Ast, level: int, done: seq<Node>, pos: nat, high: int, q: nat)
    requires e.Call? && !TooFew(c.names, e.name, |done|) && pos <= |c.s| && Peek(c, pos) == Token(RPAREN, q)
    ensures ParseArgs(c, level, e.name, done, pos, high) == Parsed(Called(c.names, e.name, done), q, high)
  {
    hide Lex, ParseLevel;
  }

  lemma LastArg(c: Ctx, e: Ast, level: int, done: seq<Node>, pos: nat, high: int, n: Node, m: nat, h: int, q: nat)
    requires e.Call? && pos <= |c.s| && m <= |c.s| && Peek(c, pos).Token? && Peek(c, pos).text != RPAREN
    requires ParseLevel(c, 0, level + 1, pos, high) == Parsed(n, m, h) && Peek(c, m) == Token(RPAREN, q)
    requires !TooMany(c.names, e.name, |done| + 1) && !TooFew(c.names, e.name, |done| + 1)
    ensures ParseArgs(c, level, e.name, done, pos, high) == Parsed(Called(c.names, e.name, done + [n]), q, h)
  {
    hide Lex, ParseLevel;
  }

  lemma AfterArg(c: Ctx, m: nat, tail: seq<Text>, q: nat, rest: seq<Ast>)
    requires m <= |c.s| && TokensAt(c, m, tail, q)
    requires tail == (if rest == [] then [] else [COMMA] + ArgTokens(rest)) + [RPAREN]
    ensures StopsAt(c, m, 0)
  {
    hide Peek, ArgTokens, StopsAt;
    PunctuationStops(c, m);
  }

  lemma ArgFails(c: Ctx, e: Ast, level: int, done: seq<Node>, pos: nat, high: int)
    requires e.Call? && pos <= |c.s| && Peek(c, pos).Token? && Peek(c, pos).text != RPAREN
    requires ParseLevel(c, 0, level + 1, pos, high).Error?
    ensures ParseArgs(c, level, e.name, done, pos, high) == ParseLevel(c, 0, level + 1, pos, high)
  {
    hide Lex, ParseLevel;
  }

  lemma NextArg(c: Ctx, e: Ast, level: int, done: seq<Node>, pos: nat, high: int, n: Node, m: nat, h: int, next: nat)
    requires e.Call? && pos <= |c.s| && m <= |c.s| && Peek(c, pos).Token? && Peek(c, pos).text != RPAREN
    requires ParseLevel(c, 0, level + 1, pos, high) == Parsed(n, m, h) && Peek(c, m) == Token(COMMA, next) &&
             next <= |c.s|
    requires !TooMany(c.names, e.name, |done| + 1) && Peek(c, next).Token? && Peek(c, next).text != RPAREN
    ensures ParseArgs(c, level, e.name, done, pos, high) == ParseArgs(c, level, e.name, done + [n], next, h)
  {
    hide Lex, ParseLevel;
  }

  /** The whole of a text that is the writing of an expression: its tree, or an error exactly if it is too deep. */
  lemma ParseRendered(c: Ctx, e: Ast, high: int)
    requires WellFormed(c.names, e) && TokensAt(c, 0, Tokens(e, 0), |c.s|)
    ensures ParseExpression(c, 0, high) == Outcome(Meaning(c.names, e), |c.s|, high, Deepest(e, 0, 0))
  {
    hide ParseLevel, Tokens, TokensAt, Deepest, WellFormed, Meaning, LexWord, LexString, LexDate, SkipIds;
    ParsesBack(c, e, 0, 0, 0, high, |c.s|);
  }
}
