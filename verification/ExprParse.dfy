/**
 The expression parser (src/expr.c), with the position as its only state: the
 next token is always the one found there.
 */
module ExprParse {
  import opened Bytes
  import opened ExprLex
  import opened Expr

  const MAX_PARSE_LEVEL := 2000
  const INT_MAX := 0x7fff_ffff
  const VAR_NAME_LEN := 64

  datatype Code =
    | OK
    | Lexical(error: Error)
    | E_OP_STK_OVER | E_EOLN | E_EXPECTING_ATOM | E_BAD_CHAR | E_MISS_RIGHT_PAREN | E_2MANY_ARGS | E_2FEW_ARGS
    | E_EXPECT_COMMA | E_CALL_ERR | E_NOSUCH_VAR | E_BAD_CONSTANT | E_EXPECTING_EOXPR

  datatype Arity = Arity(min: nat, max: nat, unlimited: bool)

  /**
   What names and literals stand for: built-in functions and system variables by
   their names in lower case, the parameters of the function that is being defined
   in order; dates, times and the like are looked up.
   */
  datatype Names = Names(builtins: map<Text, Arity>, sysVars: set<Text>, locals: seq<Text>,
                         literals: map<Text, Value>)

  /** The text to be parsed, and what its words mean. */
  datatype Ctx = Ctx(s: Text, timeSep: Byte, names: Names)

  /** A node and the place behind it; `high` is the deepest level of any parse so far. */
  datatype Res = Parsed(node: Node, pos: nat, high: int) | Error(code: Code, high: int)

  function Peek(c: Ctx, pos: nat): LexResult {
    Lex(c.s, pos, c.timeSep)
  }

  lemma PeekInside(c: Ctx, pos: nat)
    requires pos <= |c.s|
    ensures var t := Peek(c, pos);
            t.Token? ==>
              && pos <= t.next <= |c.s| && (t.text != [] ==> pos < t.next)
              && (t.text == [] <==> SkipEmpty(c.s, pos) == |c.s|)
  {
    var p := SkipEmpty(c.s, pos);
    if p < |c.s| {
      StringInside(c.s, p + 1, [QUOTE], QUOTE);
      DateInside(c.s, p + 1, [39]);
    }
  }

  lemma {:induction false} StringInside(s: Text, p: nat, token: Text, ch: Byte)
    requires token != []
    ensures var t := LexString(s, p, token, ch);
            t.Token? ==> t.text != [] && p <= t.next && (p <= |s| ==> t.next <= |s|)
    decreases |s| - p
  {
    if p < |s| {
      if s[p] == BACKSLASH {
        if p + 1 < |s| {
          EscapeInside(s, p + 1);
          var e := EscapeAt(s, p + 1);
          if e.Escape? {
            StringInside(s, e.next, token + [e.value], ch);
          }
        }
      } else if s[p] != QUOTE {
        StringInside(s, p + 1, token + [s[p]], s[p]);
      }
    }
  }

  lemma {:induction false} DateInside(s: Text, p: nat, token: Text)
    requires token != []
    ensures var t := LexDate(s, p, token);
            t.Token? ==> t.text != [] && p <= t.next && (p <= |s| ==> t.next <= |s|)
    decreases |s| - p
  {
    if p < |s| && s[p] != 39 {
      DateInside(s, p + 1, token + [s[p]]);
    }
  }

  // ----- Tokens -----

  const LPAREN: Text := [40]
  const RPAREN: Text := [41]
  const COMMA: Text := [44]

  /** The operators of each level, from || down to multiplication. */
  function OpAt(k: nat, t: Text): (op: BinOp)
    requires IsOpAt(k, t)
  {
    if k == 0 then Or
    else if k == 1 then And
    else if k == 2 then (if t == [61, 61] then Eq else Ne)
    else if k == 3 then (if t == [60, 61] then Le else if t == [62, 61] then Ge else if t == [60] then Lt else Gt)
    else if k == 4 then (if t == [43] then Add else Sub)
    else if t == [42] then Mul else if t == [47] then Div else Mod
  }

  predicate IsOpAt(k: nat, t: Text) {
    (k == 0 && t == [124, 124]) || (k == 1 && t == [38, 38])
    || (k == 2 && (t == [61, 61] || t == [33, 61]))
    || (k == 3 && (t == [60, 61] || t == [62, 61] || t == [60] || t == [62]))
    || (k == 4 && (t == [43] || t == [45]))
    || (k == 5 && (t == [42] || t == [47] || t == [37]))
  }

  predicate IsUnary(t: Text) {
    t == [33] || t == [45] || t == [43]
  }

  /** Punctuation that is legal in expressions, but does not begin an atom. */
  predicate Legal(c: Byte) {
    c == 43 || c == 45 || c == 42 || c == 47 || c == 37 || c == 38 || c == 124 || c == 61 || c == 60 || c == 62 ||
        c == 33 || c == 41
  }

  // ----- Atoms -----

  predicate AllDigits(t: Text) {
    forall i | 0 <= i < |t| :: Digit(t[i])
  }

  function Decimal(t: Text): nat
    requires AllDigits(t)
  {
    if t == [] then 0 else Decimal(t[..|t| - 1]) * 10 + (t[|t| - 1] - 48)
  }

  datatype Atom = Good(node: Node) | NotGood(code: Code)

  function Constant(names: Names, t: Text): Atom
    requires t != []
  {
    if t[0] == QUOTE then Good(Const(Str(if |t| >= 2 then StringValue(t) else [])))
    else if AllDigits(t) && Decimal(t) <= INT_MAX then Good(Const(Int(Decimal(t))))
    else if t in names.literals then Good(Const(names.literals[t]))
    else if t[0] == 39 || Digit(t[0]) then NotGood(E_BAD_CONSTANT)
    else if Legal(t[0]) then NotGood(E_EXPECTING_ATOM)
    else NotGood(E_BAD_CHAR)
  }

  function Shortened(name: Text): Text {
    if |name| <= VAR_NAME_LEN then name else name[..VAR_NAME_LEN]
  }

  function LowerChar(c: Byte): Byte {
    if 65 <= c <= 90 then c + 32 else c
  }

  function Lower(name: Text): Text {
    seq(|name|, i requires 0 <= i < |name| => LowerChar(name[i]))
  }

  predicate SameName(a: Text, b: Text) {
    Lower(Shortened(a)) == Lower(Shortened(b))
  }

  /** The first of the parameters with this name; or their number. */
  function LocalIndex(locals: seq<Text>, t: Text): (i: nat)
    ensures i <= |locals| && (i < |locals| ==> SameName(t, locals[i]))
    ensures forall j | 0 <= j < i :: !SameName(t, locals[j])
  {
    if locals == [] || SameName(t, locals[0]) then 0 else 1 + LocalIndex(locals[1..], t)
  }

  function MakeAtom(names: Names, t: Text): Atom
    requires t != []
  {
    if Alpha(t[0]) || t[0] == 95 then
      var i := LocalIndex(names.locals, t);
      Good(if i < |names.locals| then Local(i) else Var(Shortened(t)))
    else if t[0] == 36 && |t| > 1 && Alpha(t[1]) then
      if Lower(t[1..]) in names.sysVars then Good(SysVar(Lower(t[1..]))) else NotGood(E_NOSUCH_VAR)
    else Constant(names, t)
  }

  function Called(names: Names, name: Text, args: seq<Node>): Node {
    if Lower(name) in names.builtins then Builtin(Lower(name), args) else User(Lower(Shortened(name)), args)
  }

  /** Unary plus is dropped; minus and not are applied to integer constants at once. */
  function Unary(t: Text, n: Node): Node
    requires IsUnary(t)
  {
    if t == [43] then n
    else if n.Const? && n.value.Int? then
      if t == [45] then Const(Int(-n.value.v)) else Const(Int(if n.value.v == 0 then 1 else 0))
    else if t == [45] then Minus(n) else Not(n)
  }

  // ----- The grammar -----

  /** CHECK_PARSE_LEVEL: only a level deeper than ever before is compared with the limit. */
  function Higher(level: int, high: int): int {
    if level > high then level else high
  }

  predicate TooDeep(level: int, high: int) {
    level > high && level > MAX_PARSE_LEVEL
  }

  /** Expressions of level k: 0 for ||, up to 5 for multiplication. */
  function ParseLevel(c: Ctx, k: nat, level: int, pos: nat, high: int): (r: Res)
    requires k <= 5 && pos <= |c.s|
    ensures r.Parsed? ==> pos < r.pos <= |c.s|
    decreases |c.s| - pos, 16 - k
  {
    if TooDeep(level, high) then Error(E_OP_STK_OVER, level)
    else
      match ParseSub(c, k, level + 1, pos, Higher(level, high))
      case Error(code, h) => Error(code, h)
      case Parsed(n, p, h) => if k == 5 && Peek(c, p).LexError? then Error(Lexical(Peek(c, p).error), h)
          else Rest(c, k, level, n, p, h)
  }

  function ParseSub(c: Ctx, k: nat, level: int, pos: nat, high: int): (r: Res)
    requires k <= 5 && pos <= |c.s|
    ensures r.Parsed? ==> pos < r.pos <= |c.s|
    decreases |c.s| - pos, 16 - k, 0
  {
    if k < 5 then ParseLevel(c, k + 1, level, pos, high) else ParseFactor(c, level, pos, high)
  }

  /** More operands of the same level, grouped to the left. */
  function Rest(c: Ctx, k: nat, level: int, left: Node, pos: nat, high: int): (r: Res)
    requires k <= 5 && pos <= |c.s|
    ensures r.Parsed? ==> pos <= r.pos <= |c.s|
    decreases |c.s| - pos, 0
  {
    PeekInside(c, pos);
    match Peek(c, pos)
    case LexError(e) => Error(Lexical(e), high)
    case Token(t, next) =>
      if !IsOpAt(k, t) then Parsed(left, pos, high)
      else
        match ParseSub(c, k, level + 1, next, high)
        case Error(code, h) => Error(code, h)
        case Parsed(n, p, h) =>
          if k == 5 && Peek(c, p).LexError? then Error(Lexical(Peek(c, p).error), h)
          else Rest(c, k, level, Bin(OpAt(k, t), left, n), p, h)
  }

  function ParseFactor(c: Ctx, level: int, pos: nat, high: int): (r: Res)
    requires pos <= |c.s|
    ensures r.Parsed? ==> pos < r.pos <= |c.s|
    decreases |c.s| - pos, 10
  {
    if TooDeep(level, high) then Error(E_OP_STK_OVER, level)
    else
      var h := Higher(level, high);
      PeekInside(c, pos);
      match Peek(c, pos)
      case LexError(e) => Error(Lexical(e), h)
      case Token(t, next) =>
        if IsUnary(t) then
          match ParseFactor(c, level + 1, next, h)
          case Error(code, h) => Error(code, h)
          case Parsed(n, p, h) => Parsed(Unary(t, n), p, h)
        else ParseAtom(c, level + 1, pos, h)
  }

  function ParseAtom(c: Ctx, level: int, pos: nat, high: int): (r: Res)
    requires pos <= |c.s|
    ensures r.Parsed? ==> pos < r.pos <= |c.s|
    decreases |c.s| - pos, 9
  {
    if TooDeep(level, high) then Error(E_OP_STK_OVER, level)
    else
      var h := Higher(level, high);
      PeekInside(c, pos);
      match Peek(c, pos)
      case LexError(e) => Error(Lexical(e), h)
      case Token(t, next) =>
        if t == LPAREN then
          match ParseLevel(c, 0, level + 1, next, h)
          case Error(code, h) => Error(code, h)
          case Parsed(n, p, h) =>
            PeekInside(c, p);
            match Peek(c, p) {
              case LexError(e) => Error(Lexical(e), h)
              case Token(t', next') => if t' == RPAREN then Parsed(n, next', h) else Error(E_MISS_RIGHT_PAREN, h)
            }
        else if t == [] then Error(E_EOLN, h)
        else if !IdChar(t[0]) && t[0] != 36 && t[0] != QUOTE && t[0] != 39 then
          Error(if Legal(t[0]) then E_EXPECTING_ATOM else E_BAD_CHAR, h)
        else if t[|t| - 1] == 40 then ParseCall(c, level + 1, t[..|t| - 1], next, h)
        else
          match MakeAtom(c.names, t)
          case Good(n) => Parsed(n, next, h)
          case NotGood(code) => Error(code, h)
  }

  /** A function call, behind the opening parenthesis. */
  function ParseCall(c: Ctx, level: int, name: Text, pos: nat, high: int): (r: Res)
    requires pos <= |c.s|
    ensures r.Parsed? ==> pos < r.pos <= |c.s|
    decreases |c.s| - pos, 20
  {
    if TooDeep(level, high) then Error(E_OP_STK_OVER, level)
    else ParseArgs(c, level, name, [], pos, Higher(level, high))
  }

  predicate TooMany(names: Names, name: Text, n: nat) {
    Lower(name) in names.builtins && var f := names.builtins[Lower(name)]; !f.unlimited && n > f.max
  }

  predicate TooFew(names: Names, name: Text, n: nat) {
    Lower(name) in names.builtins && n < names.builtins[Lower(name)].min
  }

  function ParseArgs(c: Ctx, level: int, name: Text, args: seq<Node>, pos: nat, high: int): (r: Res)
    requires pos <= |c.s|
    ensures r.Parsed? ==> pos < r.pos <= |c.s|
    decreases |c.s| - pos, 19
  {
    PeekInside(c, pos);
    match Peek(c, pos)
    case LexError(e) => Error(Lexical(e), high)
    case Token(t, next) =>
      if t == RPAREN then CallEnd(c, name, args, next, high)
      else
        match ParseLevel(c, 0, level + 1, pos, high)
        case Error(code, h) => Error(code, h)
        case Parsed(n, p, h) =>
          var args' := args + [n];
          PeekInside(c, p);
          if TooMany(c.names, name, |args'|) then Error(E_2MANY_ARGS, h)
          else
            match Peek(c, p) {
              case LexError(e) => Error(Lexical(e), h)
              case Token(t', next') =>
                if t' == RPAREN then CallEnd(c, name, args', next', h)
                else if t' != COMMA then Error(E_EXPECT_COMMA, h)
                else
                  match Peek(c, next')
                  case LexError(e) => Error(Lexical(e), h)
                  case Token(t'', _) => if t'' == RPAREN then Error(E_CALL_ERR, h)
                      else ParseArgs(c, level, name, args', next', h)
            }
  }

  function CallEnd(c: Ctx, name: Text, args: seq<Node>, pos: nat, high: int): (r: Res)
    ensures r.Parsed? ==> r.pos == pos
  {
    if TooFew(c.names, name, |args|) then Error(E_2FEW_ARGS, high) else Parsed(Called(c.names, name, args), pos, high)
  }

  /** parse_expression: the whole text, or up to a closing bracket. */
  function ParseExpression(c: Ctx, pos: nat, high: int): Res
    requires pos <= |c.s|
  {
    match ParseLevel(c, 0, 0, pos, high)
    case Error(code, h) => Error(code, h)
    case Parsed(n, p, h) =>
      var q := SkipEmpty(c.s, p);
      if q < |c.s| && c.s[q] != 93 then Error(E_EXPECTING_EOXPR, h) else Parsed(n, q, h)
  }
}
