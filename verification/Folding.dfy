/**
 The parser applies a unary operator to an integer constant at once (src/expr.c).
 No evaluation can tell: whole programs have the same values and errors, and
 leave the same state, whether constants are folded in them or not.
 */
module Folding {
  import opened Bytes
  import opened Expr
  import opened Operators
  import opened ExprEval
  import ExprParse
  import ExprRender

  const MINUS: Text := [45]
  const NOT: Text := [33]

  /** The tree after folding, as ExprParse.Unary does it. */
  function Fold(n: Node): Node {
    match n
    case Not(kid) => ExprParse.Unary(NOT, Fold(kid))
    case Minus(kid) => ExprParse.Unary(MINUS, Fold(kid))
    case Bin(op, l, r) => Bin(op, Fold(l), Fold(r))
    case Builtin(name, args) => Builtin(name, FoldAll(args))
    case User(name, args) => User(name, FoldAll(args))
    case _ => n
  }

  function FoldAll(args: seq<Node>): (r: seq<Node>)
    ensures |r| == |args|
  {
    if args == [] then [] else [Fold(args[0])] + FoldAll(args[1..])
  }

  /** Integer constants can be negated. */
  ghost predicate InRange(n: Node) {
    match n
    case Const(v) => v.Int? ==> -INT_MAX <= v.v <= INT_MAX
    case Not(kid) => InRange(kid)
    case Minus(kid) => InRange(kid)
    case Bin(_, l, r) => InRange(l) && InRange(r)
    case Builtin(_, args) => forall i | 0 <= i < |args| :: InRange(args[i])
    case User(_, args) => forall i | 0 <= i < |args| :: InRange(args[i])
    case _ => true
  }

  ghost predicate AllInRange(args: seq<Node>) {
    forall i | 0 <= i < |args| :: InRange(args[i])
  }

  lemma {:induction false} FoldInRange(n: Node)
    requires InRange(n)
    ensures Fold(n).Const? ==> InRange(Fold(n))
  {
    match n
    case Not(kid) => FoldInRange(kid);
    case Minus(kid) => FoldInRange(kid);
    case _ =>
  }

  /** The same program, with constants folded in the bodies of all functions and in the texts that eval() parses. */
  ghost predicate FoldedWorld(w: World, w': World) {
    && Honest(w) && w' == w.(funcs := w'.funcs, parse := w'.parse) && w'.funcs.Keys == w.funcs.Keys
    && (forall name | name in w.funcs ::
          InRange(w.funcs[name].body) && w'.funcs[name] == w.funcs[name].(body := Fold(w.funcs[name].body)))
    && forall t :: FoldedParse(w.parse(t), w'.parse(t))
  }

  ghost predicate FoldedParse(p: Parse, p': Parse) {
    if p.ParseOk? then InRange(p.n) && p' == ParseOk(Fold(p.n)) else p' == p
  }

  function OnlyCount(m: Machine, k: nat): Machine {
    m.(nodes := k)
  }

  /** The same, but for fewer nodes evaluated. */
  predicate Same(m: Machine, m': Machine) {
    m' == OnlyCount(m, m'.nodes) && m'.nodes <= m.nodes
  }

  /** The limit on the nodes evaluated, if there is one, was high enough. */
  predicate Fits(o: Outcome) {
    o != Err(Operators.E_EXPR_NODES_EXCEEDED)
  }

  predicate SameResult(r: Result, r': Result) {
    r'.outcome == r.outcome && Same(r.m, r'.m)
  }

  predicate SameResults(r: Results, r': Results) {
    r'.Values? == r.Values? && (r.Values? ==> r'.vs == r.vs) && (r.Failure? ==> r'.code == r.code) && Same(r.m, r'.m)
  }

  lemma {:induction false} FoldAllAt(args: seq<Node>, i: nat)
    requires i < |args|
    ensures FoldAll(args)[i] == Fold(args[i])
  {
    if i > 0 {
      FoldAllAt(args[1..], i - 1);
    }
  }

  lemma {:induction false} FoldAllFrom(args: seq<Node>, i: nat)
    requires i <= |args|
    ensures FoldAll(args)[i..] == FoldAll(args[i..])
  {
    if i > 0 {
      FoldAllFrom(args[1..], i - 1);
      assert args[1..][i - 1..] == args[i..];
    }
  }

  /**
   Unless the evaluation is refused because of the limit on the nodes evaluated,
   folding changes neither the value nor the error of an expression, nor the state
   it leaves; and no more nodes are evaluated.
   */
  lemma {:induction false} EvalFolded(w: World, w': World, n: Node, locals: seq<Value>, m: Machine, m': Machine)
    requires FoldedWorld(w, w') && InRange(n) && Same(m, m') && Fits(Eval(w, n, locals, m).outcome)
    ensures SameResult(Eval(w, n, locals, m), Eval(w', Fold(n), locals, m'))
    decreases Left(m), n, 2
  {
    hide EvalBuiltin, EvalUser, FoldedWorld, Binary, Truthy, FoldAll, ExprParse.Unary, Negated, Honest, RefusedAtLimit;
    FoldedOn(w, w');
    if !w.disabled {
      StartsBelow(w, n, locals, m);
      var c, c' := m.(nodes := m.nodes + 1), m'.(nodes := m'.nodes + 1);
      match n
      case Builtin(name, args) =>
        if name in w.builtins {
          BuiltinFolded(w, w', n, locals, Tainted(c, w.builtins[name].isConstant),
              Tainted(c', w.builtins[name].isConstant));
        }
      case User(_, _) => UserFolded(w, w', n, locals, c, c');
      case Not(kid) => UnaryFolded(w, w', n, kid, locals, m, m');
      case Minus(kid) => UnaryFolded(w, w', n, kid, locals, m, m');
      case Bin(op, left, right) =>
        EvalFolded(w, w', left, locals, c, c');
        var r := Eval(w, left, locals, c);
        if r.outcome.Val? && !(op == And && !Truthy(r.outcome.v)) && !(op == Or && Truthy(r.outcome.v)) {
          EvalFolded(w, w', right, locals, r.m, Eval(w', Fold(left), locals, c').m);
        }
      case _ =>
    }
  }

  lemma FoldedOn(w: World, w': World)
    requires FoldedWorld(w, w')
    ensures w' == w.(funcs := w'.funcs, parse := w'.parse) && Honest(w)
  {
  }

  lemma {:induction false} UnaryFolded(w: World, w': World, n: Node, kid: Node, locals: seq<Value>, m: Machine,
                                       m': Machine)
    requires FoldedWorld(w, w') && InRange(n) && Same(m, m') && !w.disabled && (n == Not(kid) || n == Minus(kid))
    requires Fits(Eval(w, n, locals, m).outcome)
    ensures SameResult(Eval(w, n, locals, m), Eval(w', Fold(n), locals, m'))
    decreases Left(m), n, 1
  {
    hide Eval, FoldedWorld, Fold, Truthy, Negated, Honest, RefusedAtLimit;
    FoldedOn(w, w');
    StartsBelow(w, n, locals, m);
    EvalUnary(w, n, kid, locals, m);
    StartsBelow(w, kid, locals, Counted(m));
    EvalFolded(w, w', kid, locals, Counted(m), Counted(m'));
    FoldInRange(kid);
    FoldUnary(n, kid);
    var k := Fold(kid);
    if k.Const? && k.value.Int? {
      EvalConst(w', k, locals, Counted(m'));
      EvalConst(w', Fold(n), locals, m');
      OperatedOnConst(n, k);
    } else {
      EvalUnary(w', Fold(n), k, locals, m');
      assert Operated(Fold(n), Eval(w, kid, locals, Counted(m)).outcome)
          == Operated(n, Eval(w, kid, locals, Counted(m)).outcome) by {
        SameOperator(n, Fold(n), Eval(w, kid, locals, Counted(m)).outcome);
      }
    }
  }

  /** At the limit everything is refused. */
  lemma StartsBelow(w: World, n: Node, locals: seq<Value>, m: Machine)
    requires !w.disabled
    ensures AtLimit(w, m) ==> Eval(w, n, locals, m) == Result(Err(Operators.E_EXPR_NODES_EXCEEDED), m)
  {
  }

  function Counted(m: Machine): Machine {
    m.(nodes := m.nodes + 1)
  }

  /** What a unary operator makes of the outcome of its operand. */
  function Operated(n: Node, o: Outcome): Outcome {
    if o.Err? then o else if n.Not? then Bool(!Truthy(o.v)) else Negated(o.v)
  }

  lemma EvalUnary(w: World, n: Node, kid: Node, locals: seq<Value>, m: Machine)
    requires !w.disabled && (n == Not(kid) || n == Minus(kid)) && !AtLimit(w, m)
    ensures var r := Eval(w, kid, locals, Counted(m));
            Eval(w, n, locals, m) == Result(Operated(n, r.outcome), r.m)
  {
  }

  lemma EvalConst(w: World, n: Node, locals: seq<Value>, m: Machine)
    requires !w.disabled && n.Const? && !AtLimit(w, m)
    ensures Eval(w, n, locals, m) == Result(Val(n.value), Counted(m))
  {
  }

  lemma SameOperator(n: Node, n': Node, o: Outcome)
    requires n.Not? == n'.Not?
    ensures Operated(n', o) == Operated(n, o)
  {
  }

  lemma FoldUnary(n: Node, kid: Node)
    requires n == Not(kid) || n == Minus(kid)
    ensures var k := Fold(kid);
            Fold(n) == if k.Const? && k.value.Int? then Const(OfConst(n, k.value.v))
                       else if n.Not? then Not(k) else Minus(k)
  {
  }

  /** What the parser makes of the operator of `n` on an integer constant. */
  function OfConst(n: Node, v: int): Value {
    Int(if !n.Not? then -v else if v == 0 then 1 else 0)
  }

  /** It is what the operator would have answered. */
  lemma OperatedOnConst(n: Node, k: Node)
    requires (n.Not? || n.Minus?) && k.Const? && k.value.Int? && InRange(k)
    ensures Operated(n, Val(k.value)) == Val(OfConst(n, k.value.v))
  {
  }

  lemma {:induction false} ArgsFolded(w: World, w': World, args: seq<Node>, locals: seq<Value>, m: Machine, m': Machine)
    requires FoldedWorld(w, w') && AllInRange(args) && Same(m, m') &&
             EvalArgs(w, args, locals, m) != Failure(Operators.E_EXPR_NODES_EXCEEDED, EvalArgs(w, args, locals, m).m)
    ensures SameResults(EvalArgs(w, args, locals, m), EvalArgs(w', FoldAll(args), locals, m'))
    decreases Left(m), args
  {
    hide FoldedWorld, Eval, InRange, Fold;
    if args != [] {
      EvalFolded(w, w', args[0], locals, m, m');
      var r, r' := Eval(w, args[0], locals, m), Eval(w', Fold(args[0]), locals, m');
      assert FoldAll(args)[1..] == FoldAll(args[1..]);
      if r.outcome.Val? {
        ArgsFolded(w, w', args[1..], locals, r.m, r'.m);
      }
    }
  }

  lemma {:induction false} UserFolded(w: World, w': World, n: Node, locals: seq<Value>, m: Machine, m': Machine)
    requires FoldedWorld(w, w') && InRange(n) && Same(m, m') && n.User? && Fits(EvalUser(w, n, locals, m).outcome)
    ensures SameResult(EvalUser(w, n, locals, m), EvalUser(w', Fold(n), locals, m'))
    decreases Left(m), n, 1
  {
    hide EvalArgs, Eval, FoldAll, FoldedWorld, Entered, InRange, Fold;
    FoldedFunc(w, w', n.name);
    FoldedCall(n);
    if n.name in w.funcs {
      var f := w.funcs[n.name];
      if |n.args| == f.nargs {
        var a, a' := EvalArgs(w, n.args, locals, m), EvalArgs(w', FoldAll(n.args), locals, m');
        EnteredSame(a.m, a.m, n.name, f, f);
        ArgsFolded(w, w', n.args, locals, m, m');
        if a.Values? && a.m.level < MAX_RECURSION_LEVEL {
          var f' := w'.funcs[n.name];
          EnteredSame(a.m, a'.m, n.name, f, f');
          EvalFolded(w, w', f.body, a.vs, Entered(a.m, n.name, f), Entered(a'.m, n.name, f'));
        }
      }
    }
  }

  lemma FoldedCall(n: Node)
    requires n.User? && InRange(n)
    ensures Fold(n) == User(n.name, FoldAll(n.args)) && AllInRange(n.args)
  {
    hide FoldAll;
  }

  lemma EnteredSame(m: Machine, m': Machine, name: Text, f: UserFunc, f': UserFunc)
    requires Same(m, m') && f'.isConstant == f.isConstant && f'.runDisabled == f.runDisabled
    ensures Same(Entered(m, name, f), Entered(m', name, f'))
    ensures Entered(m, name, f).level == m.level + 1 && Entered(m, name, f).nodes == m.nodes
  {
  }

  lemma FoldedFunc(w: World, w': World, name: Text)
    requires FoldedWorld(w, w')
    ensures name in w'.funcs <==> name in w.funcs
    ensures name in w.funcs ==>
              && InRange(w.funcs[name].body)
              && w'.funcs[name] == w.funcs[name].(body := Fold(w.funcs[name].body))
  {
    hide InRange, Fold;
  }

  lemma {:induction false} BuiltinFolded(w: World, w': World, n: Node, locals: seq<Value>, m: Machine, m': Machine)
    requires FoldedWorld(w, w') && InRange(n) && Same(m, m') && n.Builtin? && n.name in w.builtins
    requires Fits(EvalBuiltin(w, n, locals, m).outcome)
    ensures n.name in w'.builtins && SameResult(EvalBuiltin(w, n, locals, m), EvalBuiltin(w', Fold(n), locals, m'))
    decreases Left(m), n, 1
  {
    hide FoldedWorld, EvalArgs, EvalLazy, EvalEval, Applied, FoldAll, Honest;
    FoldedOn(w, w');
    var f := w.builtins[n.name];
    if f.min <= |n.args| && (|n.args| <= f.max || f.unlimited) && m.level < MAX_RECURSION_LEVEL {
      if OwnArgs(f.style) {
        ArgsFolded(w, w', n.args, locals, m, m');
        var a, a' := EvalArgs(w, n.args, locals, m), EvalArgs(w', FoldAll(n.args), locals, m');
        if a.Values? {
          if f.style == EvalText {
            EvalEvalFolded(w, w', a.vs, a.m, a'.m);
          } else {
            AppliedFolded(w, w', f.style, n.name, a.vs, a.m, a'.m);
          }
        }
      } else {
        LazyFolded(w, w', f.style, n.args, locals, m.(level := m.level + 1), m'.(level := m.level + 1));
      }
    }
  }

  lemma {:induction false} EvalEvalFolded(w: World, w': World, vs: seq<Value>, m: Machine, m': Machine)
    requires FoldedWorld(w, w') && Same(m, m') && m.level < MAX_RECURSION_LEVEL && Fits(EvalEval(w, vs, m).outcome)
    ensures SameResult(EvalEval(w, vs, m), EvalEval(w', vs, m'))
    decreases Left(m) - 1
  {
    hide FoldedWorld, Eval, Honest;
    if |vs| >= 1 && vs[0].Str? {
      FoldedText(w, w', vs[0].s);
      var p := w.parse(vs[0].s);
      if p.ParseOk? {
        EvalFolded(w, w', p.n, [], InEval(m), InEval(m'));
      }
    }
  }

  lemma FoldedText(w: World, w': World, t: Text)
    requires FoldedWorld(w, w')
    ensures FoldedParse(w.parse(t), w'.parse(t))
  {
    hide FoldedParse;
  }

  lemma AppliedFolded(w: World, w': World, style: Style, name: Text, vs: seq<Value>, m: Machine, m': Machine)
    requires FoldedWorld(w, w') && Same(m, m')
    ensures SameResult(Applied(w, style, name, vs, m), Applied(w', style, name, vs, m'))
  {
    hide FoldedWorld;
    FoldedOn(w, w');
  }

  lemma {:induction false} LazyFolded(w: World, w': World, style: Style, args: seq<Node>, locals: seq<Value>,
                                      m: Machine, m': Machine)
    requires FoldedWorld(w, w') && AllInRange(args) && Same(m, m')
    requires Fits(EvalLazy(w, style, args, locals, m).outcome)
    ensures SameResult(EvalLazy(w, style, args, locals, m), EvalLazy(w', style, FoldAll(args), locals, m'))
    decreases Left(m), args, 2
  {
    hide FoldedWorld, Eval, EvalIif, EvalIsAny, InRange, FoldAll, Fold;
    FoldedOn(w, w');
    match style
    case Iif =>
      if |args| % 2 == 1 {
        IifFolded(w, w', args, locals, m, m');
      }
    case Choose =>
      if |args| >= 2 {
        ChooseFolded(w, w', args, locals, m, m');
      }
    case IsAny =>
      if |args| >= 1 {
        var r, r' := FirstFolded(w, w', args, locals, m, m');
        if r.outcome.Val? {
          FoldAllFrom(args, 1);
          IsAnyFolded(w, w', r.outcome.v, args[1..], locals, r.m, r'.m);
        }
      }
    case Catch =>
      if |args| >= 2 {
        NoWayAround(w, args, locals, m);
        var r, r' := FirstFolded(w, w', args, locals, m, m');
        if r.outcome.Err? {
          var code := r.outcome.code;
          FoldAllAt(args, 1);
          EvalFolded(w, w', args[1], locals, r.m.(lastCatchError := code), r'.m.(lastCatchError := code));
        }
      }
    case ValueOf =>
      if |args| >= 1 {
        var r, r' := FirstFolded(w, w', args, locals, m, m');
        if |args| >= 2 && r.outcome.Val? && r.outcome.v.Str? && r.outcome.v.s !in w.vars {
          FoldAllAt(args, 1);
          EvalFolded(w, w', args[1], locals, r.m.(nonconst := true), r'.m.(nonconst := true));
        }
      }
    case IsConst =>
      if |args| >= 1 {
        var _, _ := FirstFolded(w, w', args, locals, m.(nonconst := false), m'.(nonconst := false));
      }
    case _ =>
  }

  /** catch() does not get around the limit. */
  lemma NoWayAround(w: World, args: seq<Node>, locals: seq<Value>, m: Machine)
    requires Honest(w) && |args| >= 2 && Fits(EvalLazy(w, Catch, args, locals, m).outcome)
    ensures Fits(Eval(w, args[0], locals, m).outcome)
  {
    hide Eval, Honest;
    var r := Eval(w, args[0], locals, m);
    if r.outcome == Err(Operators.E_EXPR_NODES_EXCEEDED) {
      Refused(w, args[0], locals, m);
      StartsBelow(w, args[1], locals, r.m.(lastCatchError := r.outcome.code));
    }
  }

  lemma Refused(w: World, n: Node, locals: seq<Value>, m: Machine)
    requires Eval(w, n, locals, m).outcome == Err(Operators.E_EXPR_NODES_EXCEEDED)
    ensures !w.disabled
  {
  }

  /** The first argument, which is evaluated in any case. */
  lemma {:induction false} FirstFolded(w: World, w': World, args: seq<Node>, locals: seq<Value>, m: Machine,
                                       m': Machine)
    returns (r: Result, r': Result)
    requires FoldedWorld(w, w') && AllInRange(args) && Same(m, m') && args != [] &&
             Fits(Eval(w, args[0], locals, m).outcome)
    ensures r == Eval(w, args[0], locals, m) && r' == Eval(w', FoldAll(args)[0], locals, m') && SameResult(r, r')
    decreases Left(m), args, 0
  {
    hide FoldedWorld, Eval, InRange, FoldAll, Fold;
    FoldAllAt(args, 0);
    EvalFolded(w, w', args[0], locals, m, m');
    r, r' := Eval(w, args[0], locals, m), Eval(w', FoldAll(args)[0], locals, m');
  }

  lemma {:induction false} ChooseFolded(w: World, w': World, args: seq<Node>, locals: seq<Value>, m: Machine,
                                        m': Machine)
    requires FoldedWorld(w, w') && AllInRange(args) && Same(m, m') && |args| >= 2
    requires Fits(EvalLazy(w, Choose, args, locals, m).outcome)
    ensures SameResult(EvalLazy(w, Choose, args, locals, m), EvalLazy(w', Choose, FoldAll(args), locals, m'))
    decreases Left(m), args, 1
  {
    hide FoldedWorld, Eval, InRange, FoldAll, Fold;
    var r, r' := FirstFolded(w, w', args, locals, m, m');
    if r.outcome.Val? && r.outcome.v.Int? {
      var i := Chosen(r.outcome.v.v, |args|);
      FoldAllAt(args, i);
      EvalFolded(w, w', args[i], locals, r.m, r'.m);
    }
  }

  lemma {:induction false} IifFolded(w: World, w': World, args: seq<Node>, locals: seq<Value>, m: Machine, m': Machine)
    requires FoldedWorld(w, w') && AllInRange(args) && Same(m, m') && |args| % 2 == 1
    requires Fits(EvalIif(w, args, locals, m).outcome)
    ensures SameResult(EvalIif(w, args, locals, m), EvalIif(w', FoldAll(args), locals, m'))
    decreases Left(m), args, 0
  {
    hide FoldedWorld, Eval, InRange, FoldAll, Fold;
    FoldAllAt(args, 0);
    EvalFolded(w, w', args[0], locals, m, m');
    var r, r' := Eval(w, args[0], locals, m), Eval(w', Fold(args[0]), locals, m');
    if |args| > 1 && r.outcome.Val? {
      if Truthy(r.outcome.v) {
        FoldAllAt(args, 1);
        EvalFolded(w, w', args[1], locals, r.m, r'.m);
      } else {
        FoldAllFrom(args, 2);
        IifFolded(w, w', args[2..], locals, r.m, r'.m);
      }
    }
  }

  lemma {:induction false} IsAnyFolded(w: World, w': World, v: Value, args: seq<Node>, locals: seq<Value>, m: Machine,
                                       m': Machine)
    requires FoldedWorld(w, w') && AllInRange(args) && Same(m, m')
    requires Fits(EvalIsAny(w, v, args, locals, m).outcome)
    ensures SameResult(EvalIsAny(w, v, args, locals, m), EvalIsAny(w', v, FoldAll(args), locals, m'))
    decreases Left(m), args, 0
  {
    hide FoldedWorld, Eval, InRange, FoldAll, Fold;
    if args != [] {
      FoldAllAt(args, 0);
      FoldAllFrom(args, 1);
      EvalFolded(w, w', args[0], locals, m, m');
      var r, r' := Eval(w, args[0], locals, m), Eval(w', Fold(args[0]), locals, m');
      if r.outcome.Val? && r.outcome.v != v {
        IsAnyFolded(w, w', v, args[1..], locals, r.m, r'.m);
      }
    } else {
      assert FoldAll(args) == [];
    }
  }

  /** At the limit itself folding is felt: it leaves fewer nodes to evaluate. */
  lemma LimitIsFelt(w: World, locals: seq<Value>, m: Machine)
    requires !w.disabled && m.nodes + 1 == w.nodeLimit
    ensures var n := Minus(Const(Int(1)));
            && Eval(w, n, locals, m).outcome == Err(Operators.E_EXPR_NODES_EXCEEDED)
            && Eval(w, Fold(n), locals, m).outcome == Val(Int(-1))
  {
    EvalConst(w, Const(Int(-1)), locals, m);
  }

  // ----- What the parser builds -----

  /** The tree of an expression as it is written, with nothing folded. */
  ghost function Unfolded(names: ExprParse.Names, e: ExprRender.Ast): Node
    requires ExprRender.WellFormed(names, e)
  {
    match e
    case Leaf(t) => ExprParse.MakeAtom(names, t).node
    case Call(name, args) => ExprParse.Called(names, name, UnfoldedAll(names, args))
    case Pre(op, kid) =>
      if op == MINUS then Minus(Unfolded(names, kid))
      else if op == NOT then Not(Unfolded(names, kid))
      else Unfolded(names, kid)
    case Op(op, l, r) => Bin(op, Unfolded(names, l), Unfolded(names, r))
  }

  ghost function UnfoldedAll(names: ExprParse.Names, args: seq<ExprRender.Ast>): (r: seq<Node>)
    requires forall i | 0 <= i < |args| :: ExprRender.WellFormed(names, args[i])
    ensures |r| == |args|
  {
    if args == [] then [] else [Unfolded(names, args[0])] + UnfoldedAll(names, args[1..])
  }

  /** Looked-up literals are atoms that can be negated. */
  predicate SmallLiterals(names: ExprParse.Names) {
    forall t | t in names.literals :: names.literals[t].Int? ==> -INT_MAX <= names.literals[t].v <= INT_MAX
  }

  lemma {:induction false} ParserFolds(names: ExprParse.Names, e: ExprRender.Ast)
    requires ExprRender.WellFormed(names, e) && SmallLiterals(names)
    ensures ExprRender.Meaning(names, e) == Fold(Unfolded(names, e)) && InRange(Unfolded(names, e))
  {
    hide ExprParse.MakeAtom, ExprParse.Called, ExprParse.TooMany, ExprParse.TooFew;
    match e
    case Leaf(t) => AtomUnfolded(names, t);
    case Call(name, args) =>
      ParserFoldsAll(names, args);
      CallUnfolded(names, name, UnfoldedAll(names, args));
    case Pre(_, kid) => ParserFolds(names, kid);
    case Op(_, l, r) =>
      ParserFolds(names, l);
      ParserFolds(names, r);
  }

  lemma {:induction false} ParserFoldsAll(names: ExprParse.Names, args: seq<ExprRender.Ast>)
    requires SmallLiterals(names) && forall i | 0 <= i < |args| :: ExprRender.WellFormed(names, args[i])
    ensures ExprRender.Meanings(names, args) == FoldAll(UnfoldedAll(names, args)) &&
            AllInRange(UnfoldedAll(names, args))
  {
    hide ExprRender.WellFormed, InRange, Fold;
    if args != [] {
      ParserFolds(names, args[0]);
      ParserFoldsAll(names, args[1..]);
    }
  }

  lemma AtomUnfolded(names: ExprParse.Names, t: Text)
    requires t != [] && ExprParse.MakeAtom(names, t).Good? && SmallLiterals(names)
    ensures Fold(ExprParse.MakeAtom(names, t).node) == ExprParse.MakeAtom(names, t).node
    ensures InRange(ExprParse.MakeAtom(names, t).node)
  {
  }

  lemma CallUnfolded(names: ExprParse.Names, name: Text, args: seq<Node>)
    requires AllInRange(args)
    ensures Fold(ExprParse.Called(names, name, args)) == ExprParse.Called(names, name, FoldAll(args))
    ensures InRange(ExprParse.Called(names, name, args))
  {
    hide ExprParse.Lower, ExprParse.Shortened;
  }

  /** What the parser makes of an expression is worth what the expression as written is worth. */
  lemma ParsedKeepsValue(names: ExprParse.Names, e: ExprRender.Ast, w: World, w': World, locals: seq<Value>, m: Machine)
    requires ExprRender.WellFormed(names, e) && SmallLiterals(names) && FoldedWorld(w, w')
    requires Fits(Eval(w, Unfolded(names, e), locals, m).outcome)
    ensures var r, r' := Eval(w, Unfolded(names, e), locals, m), Eval(w', ExprRender.Meaning(names, e), locals, m);
            r'.outcome == r.outcome && r'.m == r.m.(nodes := r'.m.nodes) && r'.m.nodes <= r.m.nodes
  {
    hide Eval;
    ParserFolds(names, e);
    EvalFolded(w, w', Unfolded(names, e), locals, m, m);
  }
}
