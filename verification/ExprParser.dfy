/**
 The parser as the original runs it (src/expr.c): every function reads tokens into
 one shared buffer, and finds in it what the function it called has left there.
 */
module ExprParser {
  import opened Bytes
  import opened ExprLex
  import opened Expr
  import opened ExprParse

  class Parser {
    const c: Ctx
    const lexer: Lexer
    var highWater: int           // parse_level_high_water
    var exprNodesUsed: int

    ghost predicate Valid()
      reads this, lexer
    {
      lexer.s == c.s && lexer.timeSep == c.timeSep && NulFree(c.s) && lexer.pos <= |c.s|
    }

    /** The buffer holds the next token that has not been consumed. */
    ghost predicate AtToken()
      reads this, lexer
    {
      var t := Peek(c, lexer.pos); t.Token? && lexer.buf == t.text
    }

    /** What the grammar says has been done; nodes are kept for the result, and for nothing else. */
    ghost predicate Did(res: Res, used: int, r: Code, node: Node)
      reads this, lexer
    {
      match res
      case Parsed(n, p, h) => r == OK && node == n && lexer.pos == p && highWater == h &&
          exprNodesUsed == used + Size(n)
      case Error(code, h) => r == code && r != OK && highWater == h && exprNodesUsed == used
    }

    constructor (c: Ctx, highWater: int)
      requires NulFree(c.s)
      ensures this.c == c && Valid() && lexer.pos == 0 && this.highWater == highWater && exprNodesUsed == 0 &&
              fresh(lexer)
    {
      this.c := c;
      this.highWater, exprNodesUsed := highWater, 0;
      lexer := new Lexer(c.s, c.timeSep);
    }

    method GetToken() returns (r: Code)
      requires Valid()
      modifies lexer
      ensures Valid()
      ensures var t := Peek(c, old(lexer.pos));
              if t.Token? then r == OK && lexer.buf == t.text && lexer.pos == t.next else r == Lexical(t.error)
    {
      var ok, error := lexer.ParseExprToken();
      r := if ok then OK else Lexical(error);
    }

    method PeekToken() returns (r: Code)
      requires Valid()
      modifies lexer
      ensures Valid() && lexer.pos == old(lexer.pos)
      ensures var t := Peek(c, lexer.pos);
              if t.Token? then r == OK && lexer.buf == t.text else r == Lexical(t.error)
    {
      var pos := lexer.pos;
      var ok, error := lexer.ParseExprToken();
      lexer.pos := pos;
      r := if ok then OK else Lexical(error);
    }

    method CheckParseLevel(level: int) returns (r: Code)
      modifies this`highWater
      ensures if TooDeep(level, old(highWater)) then r == E_OP_STK_OVER && highWater == level
              else r == OK && highWater == Higher(level, old(highWater))
    {
      if level > highWater {
        highWater := level;
        if level > MAX_PARSE_LEVEL {
          return E_OP_STK_OVER;
        }
      }
      return OK;
    }

    method AllocExprNode()
      modifies this`exprNodesUsed
      ensures exprNodesUsed == old(exprNodesUsed) + 1
    {
      exprNodesUsed := exprNodesUsed + 1;
    }

    method FreeExprTree(n: Node)
      modifies this`exprNodesUsed
      ensures exprNodesUsed == old(exprNodesUsed) - Size(n)
    {
      exprNodesUsed := exprNodesUsed - Size(n);
    }

    /** The six levels of binary operators, from parse_expression_aux to parse_term_expr. */
    method ParseBinary(k: nat, level: int) returns (r: Code, node: Node)
      requires Valid() && k <= 5
      modifies this, lexer
      ensures Valid() && Did(ParseLevel(c, k, level, old(lexer.pos), old(highWater)), old(exprNodesUsed), r, node)
      ensures r == OK ==> AtToken()
      decreases |c.s| - lexer.pos, 16 - k
    {
      hide Lex, ParseSub, Rest, Size, SkipEmpty, Higher, TooDeep;
      node := Const(Int(0));
      r := CheckParseLevel(level);
      if r != OK {
        return;
      }
      r, node := ParseOperand(k, level + 1);
      if r != OK {
        return;
      }
      if k == 5 {
        r := PeekToken();
        if r != OK {
          FreeExprTree(node);
          return;
        }
      }
      r, node := ParseRest(k, level, node);
    }

    method ParseOperand(k: nat, level: int) returns (r: Code, node: Node)
      requires Valid() && k <= 5
      modifies this, lexer
      ensures Valid() && Did(ParseSub(c, k, level, old(lexer.pos), old(highWater)), old(exprNodesUsed), r, node)
      ensures r == OK && k < 5 ==> AtToken()
      decreases |c.s| - lexer.pos, 16 - k, 0
    {
      hide Lex, ParseLevel, ParseFactor, Size;
      if k < 5 {
        r, node := ParseBinary(k + 1, level);
      } else {
        r, node := ParseUnary(level);
      }
    }

    /** The loops over operators of one level. */
    method ParseRest(k: nat, level: int, left: Node) returns (r: Code, node: Node)
      requires Valid() && k <= 5 && AtToken()
      modifies this, lexer
      ensures Valid() && Did(Rest(c, k, level, left, old(lexer.pos), old(highWater)), old(exprNodesUsed) - Size(left),
              r, node)
      ensures r == OK ==> AtToken()
      decreases |c.s| - lexer.pos, 0
    {
      hide Lex, ParseSub, SkipEmpty, IsOpAt, OpAt, Size;
      node := left;
      r := OK;
      ghost var all := Rest(c, k, level, left, lexer.pos, highWater);
      while IsOpAt(k, lexer.buf)
        invariant Valid() && AtToken() && r == OK && lexer.pos >= old(lexer.pos)
        invariant Rest(c, k, level, node, lexer.pos, highWater) == all
        invariant exprNodesUsed == old(exprNodesUsed) - Size(left) + Size(node)
        decreases |c.s| - lexer.pos
      {
        PeekInside(c, lexer.pos);
        OpNotEmpty(k, lexer.buf);
        var op := OpAt(k, lexer.buf);
        AllocExprNode();
        r := GetToken();
        var right;
        r, right := ParseOperand(k, level + 1);
        if r != OK {
          FreeExprTree(node);
          exprNodesUsed := exprNodesUsed - 1;
          return;
        }
        BinSize(op, node, right);
        node := Bin(op, node, right);
        if k == 5 {
          r := PeekToken();
          if r != OK {
            FreeExprTree(node);
            return;
          }
        }
      }
    }

    method ParseUnary(level: int) returns (r: Code, node: Node)
      requires Valid()
      modifies this, lexer
      ensures Valid() && Did(ParseFactor(c, level, old(lexer.pos), old(highWater)), old(exprNodesUsed), r, node)
      decreases |c.s| - lexer.pos, 10
    {
      hide Lex, ParseAtom, SkipEmpty, Higher, TooDeep;
      node := Const(Int(0));
      r := CheckParseLevel(level);
      if r != OK {
        return;
      }
      r := PeekToken();
      if r != OK {
        return;
      }
      PeekInside(c, lexer.pos);
      if lexer.buf == [33] || lexer.buf == [45] || lexer.buf == [43] {
        var op := lexer.buf;
        r := GetToken();
        r, node := ParseUnary(level + 1);
        if r != OK || op == [43] {
          return;
        }
        if node.Const? && node.value.Int? {
          node := Const(Int(if op == [45] then -node.value.v else if node.value.v == 0 then 1 else 0));
          return;
        }
        AllocExprNode();
        node := if op == [33] then Not(node) else Minus(node);
        return;
      }
      r, node := ParseAtomic(level + 1);
    }

    method ParseAtomic(level: int) returns (r: Code, node: Node)
      requires Valid()
      modifies this, lexer
      ensures Valid() && Did(ParseAtom(c, level, old(lexer.pos), old(highWater)), old(exprNodesUsed), r, node)
      decreases |c.s| - lexer.pos, 9
    {
      hide Lex, ParseLevel, ParseCall, SkipEmpty, Higher, TooDeep, MakeAtom;
      node := Const(Int(0));
      r := CheckParseLevel(level);
      if r != OK {
        return;
      }
      r := PeekToken();
      if r != OK {
        return;
      }
      PeekInside(c, lexer.pos);
      var t := lexer.buf;
      if t == LPAREN {
        r := GetToken();
        r, node := ParseBinary(0, level + 1);
        if r != OK {
          return;
        }
        if lexer.buf != RPAREN {
          FreeExprTree(node);
          return E_MISS_RIGHT_PAREN, node;
        }
        PeekInside(c, lexer.pos);
        r := GetToken();
        return;
      }
      if t == [] {
        return E_EOLN, node;
      }
      if !IdChar(t[0]) && t[0] != 36 && t[0] != QUOTE && t[0] != 39 {
        return if Legal(t[0]) then E_EXPECTING_ATOM else E_BAD_CHAR, node;
      }
      if t[|t| - 1] == 40 {
        r, node := ParseFunctionCall(level + 1);
        return;
      }
      r := GetToken();
      AtomSize(c.names, t);
      var a := MakeNode(c.names, t);
      AllocExprNode();
      if a.NotGood? {
        exprNodesUsed := exprNodesUsed - 1;
        return a.code, node;
      }
      node := a.node;
    }

    /** The buffer holds the name and the opening parenthesis, not yet consumed. */
    method ParseFunctionCall(level: int) returns (r: Code, node: Node)
      requires Valid() && AtToken() && lexer.buf != [] && lexer.buf[|lexer.buf| - 1] == 40
      modifies this, lexer
      ensures Valid()
      ensures var t := Peek(c, old(lexer.pos));
              t.next <= |c.s| && Did(ParseCall(c, level, t.text[..|t.text| - 1], t.next, old(highWater)),
                  old(exprNodesUsed), r, node)
      decreases |c.s| - lexer.pos, 8
    {
      hide Lex, ParseLevel, SkipEmpty, Higher, TooDeep, Called;
      PeekInside(c, lexer.pos);
      node := Const(Int(0));
      r := CheckParseLevel(level);
      if r != OK {
        return;
      }
      AllocExprNode();
      var name := lexer.buf[..|lexer.buf| - 1];
      r := GetToken();
      var args;
      r, args := ParseArguments(level, name);
      if r != OK {
        return;
      }
      node := Called(c.names, name, args);
      CalledSize(c.names, name, args);
    }

    /** Arguments up to the closing parenthesis; the node of the call is allocated already. */
    method ParseArguments(level: int, name: Text) returns (r: Code, args: seq<Node>)
      requires Valid()
      modifies this, lexer
      ensures Valid()
      ensures match ParseArgs(c, level, name, [], old(lexer.pos), old(highWater))
              case Parsed(n, p, h) =>
                r == OK && n == Called(c.names, name, args) && lexer.pos == p && highWater == h
                && exprNodesUsed == old(exprNodesUsed) + Sizes(args)
              case Error(code, h) => r == code && r != OK && highWater == h && exprNodesUsed == old(exprNodesUsed) - 1
      decreases |c.s| - lexer.pos, 19
    {
      hide Lex, ParseLevel, SkipEmpty, Called;
      args := [];
      ghost var all := ParseArgs(c, level, name, [], lexer.pos, highWater);
      r := PeekToken();
      if r != OK {
        FreeCall(args);
        return;
      }
      while lexer.buf != RPAREN
        invariant Valid() && AtToken() && lexer.pos >= old(lexer.pos) && r == OK
        invariant exprNodesUsed == old(exprNodesUsed) + Sizes(args)
        invariant lexer.buf != RPAREN ==> ParseArgs(c, level, name, args, lexer.pos, highWater) == all
        invariant lexer.buf == RPAREN ==> CallEnd(c, name, args, Peek(c, lexer.pos).next, highWater) == all
        decreases |c.s| - lexer.pos
      {
        var arg;
        r, arg := ParseBinary(0, level + 1);
        if r != OK {
          FreeCall(args);
          return;
        }
        SizesConcat(args, arg);
        args := args + [arg];
        if TooMany(c.names, name, |args|) {
          FreeCall(args);
          return E_2MANY_ARGS, args;
        }
        if lexer.buf != RPAREN && lexer.buf != COMMA {
          FreeCall(args);
          return E_EXPECT_COMMA, args;
        }
        if lexer.buf == COMMA {
          PeekInside(c, lexer.pos);
          r := GetToken();
          r := PeekToken();
          if r != OK {
            FreeCall(args);
            return;
          }
          if lexer.buf == RPAREN {
            FreeCall(args);
            return E_CALL_ERR, args;
          }
        }
      }
      PeekInside(c, lexer.pos);
      r := GetToken();
      if TooFew(c.names, name, |args|) {
        FreeCall(args);
        return E_2FEW_ARGS, args;
      }
    }

    method FreeCall(args: seq<Node>)
      modifies this`exprNodesUsed
      ensures exprNodesUsed == old(exprNodesUsed) - Sizes(args) - 1
    {
      exprNodesUsed := exprNodesUsed - Sizes(args) - 1;
    }

    method ParseAll() returns (r: Code, node: Node)
      requires Valid()
      modifies this, lexer
      ensures Valid() && Did(ParseExpression(c, old(lexer.pos), old(highWater)), old(exprNodesUsed), r, node)
    {
      hide ParseLevel, SkipEmpty;
      r, node := ParseBinary(0, 0);
      if r != OK {
        return;
      }
      lexer.SkipBlank();
      if ByteAt(c.s, lexer.pos) != 0 && c.s[lexer.pos] != 93 {
        FreeExprTree(node);
        return E_EXPECTING_EOXPR, node;
      }
    }
  }

  lemma OpNotEmpty(k: nat, t: Text)
    requires IsOpAt(k, t)
    ensures t != []
  {
  }

  lemma BinSize(op: BinOp, l: Node, r: Node)
    ensures Size(Bin(op, l, r)) == 1 + Size(l) + Size(r)
  {
  }

  /** make_atom. */
  method MakeNode(names: Names, t: Text) returns (a: Atom)
    requires t != []
    ensures a == MakeAtom(names, t)
  {
    hide Decimal;
    if Alpha(t[0]) || t[0] == 95 {
      var i := 0;
      assert names.locals[0..] == names.locals;
      while i < |names.locals|
        invariant 0 <= i <= |names.locals|
        invariant LocalIndex(names.locals, t) == i + LocalIndex(names.locals[i..], t)
      {
        if SameName(t, names.locals[i]) {
          return Good(Local(i));
        }
        assert names.locals[i..][1..] == names.locals[i + 1..];
        i := i + 1;
      }
      return Good(Var(Shortened(t)));
    }
    if t[0] == 36 && |t| > 1 && Alpha(t[1]) {
      var name := Lower(t[1..]);
      return if name in names.sysVars then Good(SysVar(name)) else NotGood(E_NOSUCH_VAR);
    }
    a := SetConstant(names, t);
  }

  /** set_constant_value. */
  method SetConstant(names: Names, t: Text) returns (a: Atom)
    requires t != []
    ensures a == Constant(names, t)
  {
    hide Decimal;
    if t[0] == QUOTE {
      return Good(Const(Str(if |t| >= 2 then StringValue(t) else [])));
    }
    var k, val := 0, 0;
    DigitsFrom(t);
    while k < |t| && Digit(t[k])
      invariant 0 <= k <= |t| && AllDigits(t[..k]) && val == Decimal(t[..k])
    {
      DigitsNext(t, k);
      val := val * 10 + (t[k] - 48);
      k := k + 1;
    }
    assert t[..|t|] == t;
    if k == |t| && val <= INT_MAX {
      return Good(Const(Int(val)));
    }
    if t in names.literals {
      return Good(Const(names.literals[t]));
    }
    if t[0] == 39 || Digit(t[0]) {
      return NotGood(E_BAD_CONSTANT);
    }
    return NotGood(if Legal(t[0]) then E_EXPECTING_ATOM else E_BAD_CHAR);
  }

  lemma DigitsFrom(t: Text)
    ensures AllDigits(t[..0]) && Decimal(t[..0]) == 0
  {
  }

  lemma DigitsNext(t: Text, k: nat)
    requires k < |t| && AllDigits(t[..k]) && Digit(t[k])
    ensures AllDigits(t[..k + 1]) && Decimal(t[..k + 1]) == Decimal(t[..k]) * 10 + (t[k] - 48)
  {
    assert t[..k + 1] == t[..k] + [t[k]];
    assert t[..k + 1][..k] == t[..k];
  }

  lemma AtomSize(names: Names, t: Text)
    requires t != []
    ensures var a := MakeAtom(names, t); (a.Good? ==> Size(a.node) == 1) && (a.NotGood? ==> a.code != OK)
  {
  }

  lemma CalledSize(names: Names, name: Text, args: seq<Node>)
    ensures Size(Called(names, name, args)) == 1 + Sizes(args)
  {
  }

  lemma {:induction false} SizesConcat(args: seq<Node>, a: Node)
    ensures Sizes(args + [a]) == Sizes(args) + Size(a)
  {
    if args == [] {
      assert args + [a] == [a];
      assert Sizes([a]) == Size(a) + Sizes([]);
    } else {
      assert (args + [a])[1..] == args[1..] + [a];
      SizesConcat(args[1..], a);
    }
  }
}
