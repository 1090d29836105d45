/**
 Expressions written as texts: the tokens of ExprRender, with a space between
 any two, are read back one by one (parse_expr_token in src/expr.c).
 */
module ExprSpell {
  import opened Bytes
  import opened ExprLex
  import opened ExprParse
  import opened ExprRender
  import opened Escape

  // ----- Which tokens can be written -----

  /** A separator of hours and minutes that is neither the space nor a parenthesis. */
  predicate Sensible(timeSep: Byte) {
    !IsEmpty(timeSep) && timeSep != 40
  }

  /** Names of variables and functions, numbers, and the like. */
  predicate Word(t: Text, timeSep: Byte) {
    t != [] && IdChar(t[0]) && forall i | 0 < i < |t| :: WordChar(t[i], timeSep)
  }

  /** What reads as the name of a function if a parenthesis comes next. */
  predicate Name(t: Text, timeSep: Byte) {
    Word(t, timeSep) && !Digit(t[0])
  }

  predicate SysName(t: Text) {
    |t| >= 2 && t[0] == 36 && Alpha(t[1]) && forall i | 1 < i < |t| :: IdChar(t[i])
  }

  predicate Quoted(t: Text) {
    |t| >= 2 && t[0] == QUOTE && t[|t| - 1] == QUOTE && NulFree(t)
  }

  predicate DateLiteral(t: Text) {
    |t| >= 2 && t[0] == 39 && t[|t| - 1] == 39 && forall i | 0 < i < |t| - 1 :: t[i] != 39
  }

  predicate Operand(t: Text, timeSep: Byte) {
    Word(t, timeSep) || SysName(t) || Quoted(t) || DateLiteral(t)
  }

  predicate Mark(t: Text) {
    || (|t| == 1 && (SingleChar(t[0]) || t[0] == 33 || t[0] == 60 || t[0] == 62))
    || (|t| == 2 && t[1] == t[0] && (t[0] == 38 || t[0] == 124 || t[0] == 61))
    || (|t| == 2 && t[1] == 61 && (t[0] == 33 || t[0] == 60 || t[0] == 62))
  }

  predicate CallToken(t: Text, timeSep: Byte) {
    |t| >= 2 && t[|t| - 1] == 40 && Name(t[..|t| - 1], timeSep)
  }

  predicate Writable(t: Text, timeSep: Byte) {
    Mark(t) || Operand(t, timeSep) || CallToken(t, timeSep)
  }

  /** All leaves and names of the expression can be written. */
  ghost predicate Writing(e: Ast, timeSep: Byte) {
    match e
    case Leaf(t) => Operand(t, timeSep)
    case Call(name, args) => Name(name, timeSep) && forall i | 0 <= i < |args| :: Writing(args[i], timeSep)
    case Pre(op, kid) => IsUnary(op) && Writing(kid, timeSep)
    case Op(_, l, r) => Writing(l, timeSep) && Writing(r, timeSep)
  }

  // ----- Writing -----

  /** Strings are written with their escapes, all else as it stands. */
  function Spelled(t: Text): Text {
    if Quoted(t) then [QUOTE] + Escaped(t[1..|t| - 1]) + [QUOTE] else t
  }

  function Spell(toks: seq<Text>): Text {
    if toks == [] then []
    else if |toks| == 1 then Spelled(toks[0])
    else Spelled(toks[0]) + ([32] + Spell(toks[1..]))
  }

  // ----- One token -----

  lemma SpelledBegins(t: Text, timeSep: Byte)
    requires Writable(t, timeSep)
    ensures t != [] && Spelled(t) != [] && Spelled(t)[0] == t[0] && !IsEmpty(t[0])
    ensures t[0] == 40 <==> t == LPAREN
  {
    if CallToken(t, timeSep) {
      assert t[0] == t[..|t| - 1][0];
    }
  }

  lemma {:induction false} WordSkipped(s: Text, p: nat, q: nat, timeSep: Byte)
    requires p <= q <= |s| && (q < |s| ==> !WordChar(s[q], timeSep))
    requires forall i | p <= i < q :: WordChar(s[i], timeSep)
    ensures SkipWord(s, p, timeSep) == q
    decreases q - p
  {
    if p < q {
      WordSkipped(s, p + 1, q, timeSep);
    }
  }

  lemma {:induction false} IdsSkipped(s: Text, p: nat, q: nat)
    requires p <= q <= |s| && (q < |s| ==> !IdChar(s[q]))
    requires forall i | p <= i < q :: IdChar(s[i])
    ensures SkipIds(s, p) == q
    decreases q - p
  {
    if p < q {
      IdsSkipped(s, p + 1, q);
    }
  }

  lemma {:induction false} DateRead(s: Text, p: nat, q: nat, token: Text)
    requires p < q <= |s| && s[q - 1] == 39 && forall i | p <= i < q - 1 :: s[i] != 39
    ensures LexDate(s, p, token) == Token(token + s[p..q], q)
    decreases q - p
  {
    if p + 1 < q {
      DateRead(s, p + 1, q, token + [s[p]]);
      assert token + [s[p]] + s[p + 1..q] == token + s[p..q];
    } else {
      assert s[p..q] == [s[p]];
    }
  }

  lemma {:induction false} SkipTwice(s: Text, p: nat)
    requires p <= |s|
    ensures SkipEmpty(s, SkipEmpty(s, p)) == SkipEmpty(s, p)
    decreases |s| - p
  {
    if p < |s| && IsEmpty(s[p]) {
      SkipTwice(s, p + 1);
    }
  }

  /** A token followed by a space or by nothing is read; only behind words the space is gone too. */
  lemma TokenRead(s: Text, p: nat, t: Text, timeSep: Byte) returns (next: nat)
    requires Sensible(timeSep) && Writable(t, timeSep) && Here(s, p, Spelled(t))
    requires var q := p + |Spelled(t)|;
             && (q < |s| ==> s[q] == 32)
             && (Name(t, timeSep) ==> ByteAt(s, SkipEmpty(s, q)) != 40)
    ensures var q := p + |Spelled(t)|;
            Lex(s, p, timeSep) == Token(t, next) && q <= next <= |s| && SkipEmpty(s, next) == SkipEmpty(s, q)
  {
    hide Lex, Quoted, DateLiteral, SysName, Mark, Word, SkipEmpty, Sensible;
    var q := p + |Spelled(t)|;
    next := q;
    if Quoted(t) {
      QuotedRead(s, p, t, timeSep);
    } else if Mark(t) {
      MarkRead(s, p, t, timeSep);
    } else if DateLiteral(t) {
      DateLiteralRead(s, p, t, timeSep);
    } else if SysName(t) {
      SysNameRead(s, p, t, timeSep);
    } else if Word(t, timeSep) {
      WordRead(s, p, t, timeSep);
      next := SkipEmpty(s, q);
      SkipTwice(s, q);
    } else {
      assert t[..|t| - 1] + [40] == t;
      CallRead(s, p, t[..|t| - 1], timeSep);
    }
  }

  lemma QuotedRead(s: Text, p: nat, t: Text, timeSep: Byte)
    requires Quoted(t) && Here(s, p, Spelled(t))
    ensures Lex(s, p, timeSep) == Token(t, p + |Spelled(t)|)
  {
    hide Lex, Escaped, Quoted, Spelled, Here, NulFree;
    var u := QuotedParts(t);
    EscapeRoundTrip(s, p, u, timeSep);
  }

  lemma QuotedParts(t: Text) returns (u: Text)
    requires Quoted(t)
    ensures NulFree(u) && t == [QUOTE] + u + [QUOTE] && Spelled(t) == [QUOTE] + Escaped(u) + [QUOTE]
  {
    hide Escaped;
    u := t[1..|t| - 1];
    assert forall i | 0 <= i < |u| :: u[i] == t[i + 1];
  }

  lemma DateLiteralRead(s: Text, p: nat, t: Text, timeSep: Byte)
    requires DateLiteral(t) && Here(s, p, t)
    ensures Lex(s, p, timeSep) == Token(t, p + |t|)
  {
    hide LexString, LexWord, SkipIds, LexDate;
    HereAt(s, p, t, 0);
    HereAt(s, p, t, |t| - 1);
    forall i | p + 1 <= i < p + |t| - 1
      ensures s[i] != 39
    {
      HereAt(s, p, t, i - p);
    }
    DateRead(s, p + 1, p + |t|, [39]);
    assert [39] + s[p + 1..p + |t|] == s[p..p + |t|];
  }

  lemma SysNameRead(s: Text, p: nat, t: Text, timeSep: Byte)
    requires SysName(t) && Here(s, p, t) && (p + |t| < |s| ==> s[p + |t|] == 32)
    ensures Lex(s, p, timeSep) == Token(t, p + |t|)
  {
    hide LexString, LexWord, SkipIds, LexDate;
    HereAt(s, p, t, 0);
    HereAt(s, p, t, 1);
    forall i | p + 1 <= i < p + |t|
      ensures IdChar(s[i])
    {
      HereAt(s, p, t, i - p);
    }
    IdsSkipped(s, p + 1, p + |t|);
  }

  lemma MarkRead(s: Text, p: nat, t: Text, timeSep: Byte)
    requires Mark(t) && Here(s, p, t) && (p + |t| < |s| ==> s[p + |t|] == 32)
    ensures Lex(s, p, timeSep) == Token(t, p + |t|)
  {
    hide LexString, LexDate, LexWord, SkipIds;
    HereAt(s, p, t, 0);
    if |t| == 2 {
      HereAt(s, p, t, 1);
    }
  }

  lemma WordRead(s: Text, p: nat, t: Text, timeSep: Byte)
    requires Sensible(timeSep) && Word(t, timeSep) && Here(s, p, t)
    requires var q := p + |t|;
             && (q < |s| ==> s[q] == 32)
             && (Name(t, timeSep) ==> ByteAt(s, SkipEmpty(s, q)) != 40)
    ensures Lex(s, p, timeSep) == Token(t, SkipEmpty(s, p + |t|))
  {
    hide LexString, LexDate, SkipIds, SkipWord;
    var q := p + |t|;
    HereAt(s, p, t, 0);
    forall i | p + 1 <= i < q
      ensures WordChar(s[i], timeSep)
    {
      HereAt(s, p, t, i - p);
    }
    WordSkipped(s, p + 1, q, timeSep);
  }

  lemma CallRead(s: Text, p: nat, name: Text, timeSep: Byte)
    requires Sensible(timeSep) && Name(name, timeSep) && Here(s, p, name + [40])
    ensures Lex(s, p, timeSep) == Token(name + [40], p + |name| + 1)
  {
    hide LexString, LexDate, SkipIds, SkipWord;
    var q := p + |name|;
    HereSplit(s, p, name, [40]);
    HereAt(s, p, name, 0);
    HereAt(s, q, [40], 0);
    forall i | p + 1 <= i < q
      ensures WordChar(s[i], timeSep)
    {
      HereAt(s, p, name, i - p);
    }
    WordSkipped(s, p + 1, q, timeSep);
    assert SkipEmpty(s, q) == q;
  }

  // ----- Rows of tokens -----

  /** All can be written, and no name has an opening parenthesis behind it. */
  predicate Fine(toks: seq<Text>, timeSep: Byte) {
    && (forall i | 0 <= i < |toks| :: Writable(toks[i], timeSep))
    && forall i | 0 < i < |toks| :: toks[i] == LPAREN ==> !Name(toks[i - 1], timeSep)
  }

  /** Tokens with spaces between them are the tokens that are read. */
  lemma {:induction false} SpellingRead(c: Ctx, pos: nat, b: nat, toks: seq<Text>)
    requires Sensible(c.timeSep) && Fine(toks, c.timeSep) && toks != []
    requires pos <= |c.s| && b <= |c.s| && SkipEmpty(c.s, pos) == b && c.s[b..] == Spell(toks)
    ensures TokensAt(c, pos, toks, |c.s|)
    decreases |toks|
  {
    hide Lex, Spelled, Writable, Spell, SkipEmpty, Fine, Name;
    var s, t := c.s, toks[0];
    SkipTwice(s, pos);
    SamePlace(c, pos, b);
    FineRest(toks, c.timeSep);
    if |toks| == 1 {
      LastPiece(s, b, toks, c.timeSep);
      var next := TokenRead(s, b, t, c.timeSep);
    } else {
      NextPiece(s, b, toks, c.timeSep);
      var next := TokenRead(s, b, t, c.timeSep);
      SpellingRead(c, next, b + |Spelled(t)| + 1, toks[1..]);
    }
  }

  lemma LastPiece(s: Text, b: nat, toks: seq<Text>, timeSep: Byte)
    requires b <= |s| && |toks| == 1 && Fine(toks, timeSep) && s[b..] == Spell(toks)
    ensures Here(s, b, Spelled(toks[0])) && b + |Spelled(toks[0])| == |s| && SkipEmpty(s, |s|) == |s|
  {
    hide Spelled, Writable;
  }

  /** Behind the first token there is a space, and then the next one. */
  lemma NextPiece(s: Text, b: nat, toks: seq<Text>, timeSep: Byte)
    requires b <= |s| && |toks| > 1 && Fine(toks, timeSep) && s[b..] == Spell(toks)
    ensures var q := b + |Spelled(toks[0])|;
            && Here(s, b, Spelled(toks[0])) && q < |s| && s[q] == 32
            && SkipEmpty(s, q) == q + 1 && s[q + 1..] == Spell(toks[1..])
            && (Name(toks[0], timeSep) ==> ByteAt(s, q + 1) != 40)
  {
    hide Spelled, Writable, Name;
    var q := b + |Spelled(toks[0])|;
    var rest := Spell(toks[1..]);
    HereSplit(s, b, Spelled(toks[0]), [32] + rest);
    HereSplit(s, q, [32], rest);
    HereAt(s, q, [32], 0);
    RestBegins(toks[1..], timeSep);
    HereAt(s, q + 1, rest, 0);
    SpelledBegins(toks[1], timeSep);
    assert toks[1] == LPAREN ==> !Name(toks[0], timeSep);
    assert SkipEmpty(s, q + 1) == q + 1;
  }

  lemma SamePlace(c: Ctx, pos: nat, b: nat)
    requires SkipEmpty(c.s, pos) == b == SkipEmpty(c.s, b)
    ensures Peek(c, pos) == Peek(c, b)
  {
    hide LexString, LexDate, LexWord, SkipIds, SkipEmpty;
  }

  lemma RestBegins(toks: seq<Text>, timeSep: Byte)
    requires toks != [] && Writable(toks[0], timeSep)
    ensures Spell(toks) != [] && Spell(toks)[0] == toks[0][0] && !IsEmpty(toks[0][0])
  {
    hide Writable;
    SpelledBegins(toks[0], timeSep);
  }

  lemma FineRest(toks: seq<Text>, timeSep: Byte)
    requires toks != [] && Fine(toks, timeSep)
    ensures Fine(toks[1..], timeSep) && Writable(toks[0], timeSep)
  {
    hide Writable, Name;
    var rest := toks[1..];
    forall i | 0 < i < |rest|
      ensures rest[i] == LPAREN ==> !Name(rest[i - 1], timeSep)
    {
      assert rest[i] == toks[i + 1] && rest[i - 1] == toks[i];
    }
  }

  // ----- The tokens of expressions -----

  lemma FineConcat(a: seq<Text>, b: seq<Text>, timeSep: Byte)
    requires Fine(a, timeSep) && Fine(b, timeSep)
    requires a != [] && b != [] && b[0] == LPAREN ==> !Name(a[|a| - 1], timeSep)
    ensures Fine(a + b, timeSep)
  {
    hide Writable, Name;
    var c := a + b;
    forall i | 0 < i < |c|
      ensures c[i] == LPAREN ==> !Name(c[i - 1], timeSep)
    {
      if i < |a| {
        assert c[i] == a[i] && c[i - 1] == a[i - 1];
      } else if i > |a| {
        assert c[i] == b[i - |a|] && c[i - 1] == b[i - |a| - 1];
      }
    }
  }

  /** A mark between them keeps two rows apart. */
  lemma FineJoin(a: seq<Text>, m: Text, b: seq<Text>, timeSep: Byte)
    requires Fine(a, timeSep) && Fine(b, timeSep) && Mark(m) && (a != [] ==> m != LPAREN)
    ensures Fine(a + ([m] + b), timeSep)
  {
    hide Name;
    assert !Name(m, timeSep) by {
      MarkNoName(m, timeSep);
    }
    FineConcat([m], b, timeSep);
    FineConcat(a, [m] + b, timeSep);
  }

  lemma MarkNoName(m: Text, timeSep: Byte)
    requires Mark(m)
    ensures !Name(m, timeSep)
  {
  }

  lemma {:induction false} TokensFine(e: Ast, k: nat, timeSep: Byte)
    requires Sensible(timeSep) && Writing(e, timeSep)
    ensures Fine(Tokens(e, k), timeSep)
    decreases e, if Prec(e) < k then 1 else 0
  {
    hide Fine, Tokens, ArgTokens, Operand, Name;
    if Prec(e) < k {
      TokensFine(e, 0, timeSep);
      BracketFine(e, k, timeSep);
    } else if e.Call? {
      ArgTokensFine(e.args, timeSep);
      CallFine(e, k, timeSep);
    } else if e.Pre? {
      TokensFine(e.kid, 6, timeSep);
      PreFine(e, k, timeSep);
    } else if e.Op? {
      TokensFine(e.left, LevelOf(e.op), timeSep);
      TokensFine(e.right, LevelOf(e.op) + 1, timeSep);
      OpFine(e, k, timeSep);
    } else {
      LeafFine(e, k, timeSep);
    }
  }

  lemma BracketFine(e: Ast, k: nat, timeSep: Byte)
    requires Prec(e) < k && Fine(Tokens(e, 0), timeSep)
    ensures Fine(Tokens(e, k), timeSep)
  {
    hide Fine;
    NoneFine(timeSep);
    FineJoin(Tokens(e, 0), RPAREN, [], timeSep);
    FineJoin([], LPAREN, Tokens(e, 0) + ([RPAREN] + []), timeSep);
    assert [] + ([LPAREN] + (Tokens(e, 0) + ([RPAREN] + []))) == Tokens(e, k);
  }

  lemma LeafFine(e: Ast, k: nat, timeSep: Byte)
    requires k <= Prec(e) && e.Leaf? && Operand(e.token, timeSep)
    ensures Fine(Tokens(e, k), timeSep)
  {
    hide Operand;
  }

  lemma CallFine(e: Ast, k: nat, timeSep: Byte)
    requires k <= Prec(e) && e.Call? && Sensible(timeSep) && Name(e.name, timeSep) && Fine(ArgTokens(e.args), timeSep)
    ensures Fine(Tokens(e, k), timeSep)
  {
    hide Fine, ArgTokens, Name;
    var toks := ArgTokens(e.args);
    NoneFine(timeSep);
    FineJoin(toks, RPAREN, [], timeSep);
    assert toks + ([RPAREN] + []) == toks + [RPAREN];
    CallTokenFine(e.name, timeSep);
    FineConcat([e.name + [40]], toks + [RPAREN], timeSep);
    assert [e.name + [40]] + (toks + [RPAREN]) == Tokens(e, k);
  }

  lemma CallTokenFine(name: Text, timeSep: Byte)
    requires Sensible(timeSep) && Name(name, timeSep)
    ensures Fine([name + [40]], timeSep) && !Name(name + [40], timeSep)
  {
    assert (name + [40])[..|name|] == name;
    assert (name + [40])[|name|] == 40;
  }

  lemma PreFine(e: Ast, k: nat, timeSep: Byte)
    requires k <= Prec(e) && e.Pre? && IsUnary(e.pre) && Fine(Tokens(e.kid, 6), timeSep)
    ensures Fine(Tokens(e, k), timeSep)
  {
    hide Fine;
    NoneFine(timeSep);
    FineJoin([], e.pre, Tokens(e.kid, 6), timeSep);
    assert [] + ([e.pre] + Tokens(e.kid, 6)) == Tokens(e, k);
  }

  lemma OpFine(e: Ast, k: nat, timeSep: Byte)
    requires k <= Prec(e) && e.Op?
    requires Fine(Tokens(e.left, LevelOf(e.op)), timeSep) && Fine(Tokens(e.right, LevelOf(e.op) + 1), timeSep)
    ensures Fine(Tokens(e, k), timeSep)
  {
    hide Fine, IsOpAt, OpAt;
    FineJoin(Tokens(e.left, LevelOf(e.op)), OpToken(e.op), Tokens(e.right, LevelOf(e.op) + 1), timeSep);
  }

  lemma {:induction false} ArgTokensFine(args: seq<Ast>, timeSep: Byte)
    requires Sensible(timeSep) && forall i | 0 <= i < |args| :: Writing(args[i], timeSep)
    ensures Fine(ArgTokens(args), timeSep)
    decreases args
  {
    hide Fine, Tokens;
    if args == [] {
      NoneFine(timeSep);
    } else {
      TokensFine(args[0], 0, timeSep);
      if |args| > 1 {
        ArgTokensFine(args[1..], timeSep);
        FineJoin(Tokens(args[0], 0), COMMA, ArgTokens(args[1..]), timeSep);
      }
    }
  }

  lemma NoneFine(timeSep: Byte)
    ensures Fine([], timeSep)
  {
  }

  /**
   Print and parse: an expression written as a text, with only the parentheses
   it needs, is parsed to its tree, and nothing of the text is left; or it is
   refused, exactly if it is deeper than any that was accepted before and than the
   limit.
   */
  lemma WrittenParsesBack(names: Names, timeSep: Byte, e: Ast, high: int)
    requires Sensible(timeSep) && Writing(e, timeSep) && WellFormed(names, e)
    ensures var s := Spell(Tokens(e, 0));
            ParseExpression(Ctx(s, timeSep, names), 0, high) == Outcome(Meaning(names, e), |s|, high, Deepest(e, 0, 0))
  {
    hide ParseExpression, Tokens, TokensAt, Deepest, WellFormed, Meaning, Fine, Spell, Outcome;
    var toks := Tokens(e, 0);
    var c := Ctx(Spell(toks), timeSep, names);
    TokensFine(e, 0, timeSep);
    FirstToken(names, e, 0);
    StartsAtOnce(c, toks);
    SpellingRead(c, 0, 0, toks);
    ParseRendered(c, e, high);
  }

  /** The number 1 behind so many minus signs. */
  function Nested(n: nat): Ast {
    if n == 0 then Leaf([49]) else Pre([45], Nested(n - 1))
  }

  lemma {:induction false} NestedDepth(n: nat, level: int)
    ensures Deepest(Nested(n), 6, level) == level + n + 1
  {
    if n > 0 {
      NestedDepth(n - 1, level + 1);
    }
  }

  lemma {:induction false} NestedWritten(n: nat, names: Names, timeSep: Byte)
    ensures Writing(Nested(n), timeSep) && WellFormed(names, Nested(n))
  {
    if n > 0 {
      NestedWritten(n - 1, names, timeSep);
    }
  }

  lemma DepthFromTop(n: nat)
    ensures Deepest(Nested(n), 0, 0) == n + 7
  {
    NestedDepth(n, 6);
    var e := Nested(n);
    assert Deepest(e, 5, 5) == Max(5, Deepest(e, 6, 6));
    assert Deepest(e, 3, 3) == Max(3, Max(4, Deepest(e, 5, 5)));
    assert Deepest(e, 1, 1) == Max(1, Max(2, Deepest(e, 3, 3)));
  }

  /** As the limit is only compared with new depths, what is refused is accepted when it is tried again. */
  lemma RefusedThenAccepted(names: Names, timeSep: Byte)
    requires Sensible(timeSep)
    ensures var c := Ctx(Spell(Tokens(Nested(1994), 0)), timeSep, names);
            ParseExpression(c, 0, 0) == Error(E_OP_STK_OVER, 2001) && ParseExpression(c, 0, 2001).Parsed?
  {
    hide ParseExpression, Tokens, Deepest, WellFormed, Meaning, Spell, Nested, Writing;
    DepthFromTop(1994);
    NestedWritten(1994, names, timeSep);
    WrittenParsesBack(names, timeSep, Nested(1994), 0);
    WrittenParsesBack(names, timeSep, Nested(1994), 2001);
  }

  lemma StartsAtOnce(c: Ctx, toks: seq<Text>)
    requires Fine(toks, c.timeSep) && toks != [] && c.s == Spell(toks)
    ensures SkipEmpty(c.s, 0) == 0 && c.s[0..] == c.s
  {
    hide Spell, Writable;
    RestBegins(toks, c.timeSep);
  }
}
