/**
 The evaluator with the global variables that it changes and puts back (src/expr.c).
 */
module Evaluator {
  import opened Bytes
  import opened Expr
  import opened Operators
  import opened ExprEval

  class Evaluator {
    const w: World
    var funcRecursionLevel: int
    var nodesEvaluated: nat
    var runDisabled: bv8
    var currentUserFunc: Text
    var lastCatchError: Code
    ghost var hidden: bool

    /** The global variables, and the flag of the caller. */
    ghost function State(nonconst: bool): Machine
      reads this
    {
      Machine(funcRecursionLevel, nodesEvaluated, runDisabled, currentUserFunc, lastCatchError, nonconst, hidden)
    }

    constructor (w: World)
      ensures this.w == w && funcRecursionLevel == 0
    {
      this.w := w;
      funcRecursionLevel, nodesEvaluated, runDisabled, currentUserFunc, lastCatchError := 0, 0, 0, [], E_SWERR;
      hidden := false;
    }

    method EvaluateExprNode(n: Node, locals: seq<Value>, nonconst0: bool) returns (r: Outcome, nonconst: bool)
      modifies this
      ensures Eval(w, n, locals, old(State(nonconst0))) == Result(r, State(nonconst))
      decreases Left(State(nonconst0)), n, 2
    {
      hide EvalBuiltin, EvalUser, Binary, Negated, Truthy, RefusedAtLimit;
      nonconst := nonconst0;
      if w.disabled {
        return Err(E_EXPR_DISABLED), nonconst;
      }
      if w.nodeLimit > 0 && nodesEvaluated >= w.nodeLimit {
        return Err(E_EXPR_NODES_EXCEEDED), nonconst;
      }
      nodesEvaluated := nodesEvaluated + 1;
      match n
      case Const(v) => return Val(v), nonconst;
      case Var(name) =>
        if name !in w.vars {
          return Err(E_NOSUCH_VAR), nonconst;
        }
        return Val(w.vars[name].value), nonconst || !w.vars[name].isConstant;
      case Local(i) => return if i < |locals| then Val(locals[i]) else Err(E_SWERR), nonconst;
      case SysVar(name) =>
        if name !in w.sysVars {
          return Err(E_SWERR), nonconst;
        }
        return Val(w.sysVars[name].value), nonconst || !w.sysVars[name].isConstant;
      case Builtin(name, _) =>
        if name !in w.builtins {
          return Err(E_SWERR), nonconst;
        }
        if !w.builtins[name].isConstant {
          nonconst := true;
        }
        r, nonconst := CallBuiltin(n, locals, nonconst);
      case User(_, _) => r, nonconst := CallUserFunc(n, locals, nonconst);
      case Not(kid) => r, nonconst := LogicalNot(kid, locals, nonconst, n);
      case Minus(kid) => r, nonconst := UnaryMinus(kid, locals, nonconst, n);
      case Bin(op, left, right) => r, nonconst := BinaryOperator(op, left, right, locals, nonconst, n);
    }

    method LogicalNot(kid: Node, locals: seq<Value>, nonconst0: bool, ghost n: Node)
      returns (r: Outcome, nonconst: bool)
      requires n == Not(kid)
      modifies this
      ensures var a := Eval(w, kid, locals, old(State(nonconst0)));
              Result(r, State(nonconst)) == if a.outcome.Err? then a else Result(Bool(!Truthy(a.outcome.v)), a.m)
      decreases Left(State(nonconst0)), n, 1
    {
      hide Eval, RefusedAtLimit;
      r, nonconst := EvaluateExprNode(kid, locals, nonconst0);
      if r.Val? {
        r := Bool(!Truthy(r.v));
      }
    }

    method UnaryMinus(kid: Node, locals: seq<Value>, nonconst0: bool, ghost n: Node)
      returns (r: Outcome, nonconst: bool)
      requires n == Minus(kid)
      modifies this
      ensures var a := Eval(w, kid, locals, old(State(nonconst0)));
              Result(r, State(nonconst)) == if a.outcome.Err? then a else Result(Negated(a.outcome.v), a.m)
      decreases Left(State(nonconst0)), n, 1
    {
      hide Eval, RefusedAtLimit;
      r, nonconst := EvaluateExprNode(kid, locals, nonconst0);
      if r.Val? {
        r := Negated(r.v);
      }
    }

    method BinaryOperator(op: BinOp, left: Node, right: Node, locals: seq<Value>, nonconst0: bool, ghost n: Node)
      returns (r: Outcome, nonconst: bool)
      requires n == Bin(op, left, right)
      modifies this
      ensures var a := Eval(w, left, locals, old(State(nonconst0)));
              Result(r, State(nonconst)) ==
              if a.outcome.Err? || (op == And && !Truthy(a.outcome.v)) || (op == Or && Truthy(a.outcome.v)) then a
              else
                var b := Eval(w, right, locals, a.m);
                if b.outcome.Err? || op == And || op == Or then b
                    else Result(Binary(w.format, op, a.outcome.v, b.outcome.v), b.m)
      decreases Left(State(nonconst0)), n, 1
    {
      hide Eval, Binary, Truthy, RefusedAtLimit;
      r, nonconst := EvaluateExprNode(left, locals, nonconst0);
      if r.Err? || (op == And && !Truthy(r.v)) || (op == Or && Truthy(r.v)) {
        return;
      }
      var v1 := r.v;
      r, nonconst := EvaluateExprNode(right, locals, nonconst);
      if r.Err? || op == And || op == Or {
        return;
      }
      r := Binary(w.format, op, v1, r.v);
    }

    method EvaluateArgs(args: seq<Node>, locals: seq<Value>, nonconst0: bool)
      returns (ok: bool, error: Code, vs: seq<Value>, nonconst: bool)
      modifies this
      ensures EvalArgs(w, args, locals, old(State(nonconst0)))
              == if ok then Values(vs, State(nonconst)) else Failure(error, State(nonconst))
      decreases Left(State(nonconst0)), args
    {
      hide Eval, RefusedAtLimit;
      ok, error, vs, nonconst := true, E_SWERR, [], nonconst0;
      ghost var all := EvalArgs(w, args, locals, State(nonconst0));
      var i := 0;
      while i < |args|
        invariant 0 <= i <= |args| && |vs| == i && funcRecursionLevel == old(funcRecursionLevel)
        invariant all == Prepended(vs, EvalArgs(w, args[i..], locals, State(nonconst)))
      {
        assert args[i..][1..] == args[i + 1..];
        ghost var m := State(nonconst);
        var r;
        r, nonconst := EvaluateExprNode(args[i], locals, nonconst);
        if r.Err? {
          return false, r.code, vs, nonconst;
        }
        PrependedMore(vs, r.v, EvalArgs(w, args[i + 1..], locals, State(nonconst)));
        vs := vs + [r.v];
        i := i + 1;
      }
      assert vs + [] == vs;
    }

    method CallUserFunc(n: Node, locals: seq<Value>, nonconst0: bool) returns (r: Outcome, nonconst: bool)
      requires n.User?
      modifies this
      ensures EvalUser(w, n, locals, old(State(nonconst0))) == Result(r, State(nonconst))
      decreases Left(State(nonconst0)), n, 1
    {
      hide Eval, EvalArgs, RefusedAtLimit;
      nonconst := nonconst0;
      if n.name !in w.funcs {
        return Err(E_UNDEF_FUNC), nonconst;
      }
      var f := w.funcs[n.name];
      if |n.args| < f.nargs {
        return Err(E_2FEW_ARGS), nonconst;
      }
      if |n.args| > f.nargs {
        return Err(E_2MANY_ARGS), nonconst;
      }
      var ok, error, vs;
      ok, error, vs, nonconst := EvaluateArgs(n.args, locals, nonconst);
      if !ok {
        return Err(error), nonconst;
      }
      if funcRecursionLevel >= MAX_RECURSION_LEVEL {
        return Err(E_RECURSIVE), nonconst;
      }
      r, nonconst := RunBody(n.name, f, vs, nonconst);
    }

    method RunBody(name: Text, f: UserFunc, vs: seq<Value>, nonconst0: bool) returns (r: Outcome, nonconst: bool)
      requires funcRecursionLevel < MAX_RECURSION_LEVEL
      modifies this
      ensures var m := old(State(nonconst0));
              var b := Eval(w, f.body, vs, Entered(m, name, f));
              && r == b.outcome
              && State(nonconst) == b.m.(level := m.level, runDisabled := m.runDisabled, current := m.current)
      decreases Left(State(nonconst0)) - 1
    {
      hide Eval, RefusedAtLimit;
      nonconst := nonconst0;
      var previouslyExecuting := currentUserFunc;
      currentUserFunc := name;
      funcRecursionLevel := funcRecursionLevel + 1;
      if !f.isConstant {
        nonconst := true;
      }
      var oldRunDisabled := runDisabled;
      if f.runDisabled {
        runDisabled := runDisabled | RUN_UF;
      }
      r, nonconst := EvaluateExprNode(f.body, vs, nonconst);
      runDisabled := oldRunDisabled;
      funcRecursionLevel := funcRecursionLevel - 1;
      currentUserFunc := previouslyExecuting;
    }

    method CallBuiltin(n: Node, locals: seq<Value>, nonconst0: bool) returns (r: Outcome, nonconst: bool)
      requires n.Builtin? && n.name in w.builtins
      modifies this
      ensures EvalBuiltin(w, n, locals, old(State(nonconst0))) == Result(r, State(nonconst))
      decreases Left(State(nonconst0)), n, 1
    {
      hide Eval, EvalArgs, EvalLazy, RefusedAtLimit;
      nonconst := nonconst0;
      var f := w.builtins[n.name];
      if |n.args| < f.min {
        return Err(E_2FEW_ARGS), nonconst;
      }
      if |n.args| > f.max && !f.unlimited {
        return Err(E_2MANY_ARGS), nonconst;
      }
      if funcRecursionLevel >= MAX_RECURSION_LEVEL {
        return Err(E_RECURSIVE), nonconst;
      }
      if !OwnArgs(f.style) {
        funcRecursionLevel := funcRecursionLevel + 1;
        r, nonconst := CallLazy(f.style, n.args, locals, nonconst);
        funcRecursionLevel := funcRecursionLevel - 1;
        return;
      }
      r, nonconst := CallOldStyle(f.style, n, locals, nonconst);
    }

    /** Functions whose arguments are evaluated first. */
    method CallOldStyle(style: Style, n: Node, locals: seq<Value>, nonconst0: bool) returns (r: Outcome, nonconst: bool)
      requires n.Builtin? && OwnArgs(style) && funcRecursionLevel < MAX_RECURSION_LEVEL
      modifies this
      ensures Result(r, State(nonconst)) ==
              match EvalArgs(w, n.args, locals, old(State(nonconst0)))
              case Failure(code, m) => Result(Err(code), m)
              case Values(vs, m) => if style == EvalText then EvalEval(w, vs, m) else Applied(w, style, n.name, vs, m)
      decreases Left(State(nonconst0)), n, 0
    {
      hide Eval, EvalArgs, EvalEval, RefusedAtLimit;
      var ok, error, vs;
      ok, error, vs, nonconst := EvaluateArgs(n.args, locals, nonconst0);
      if !ok {
        return Err(error), nonconst;
      }
      var infoNonconst;
      funcRecursionLevel := funcRecursionLevel + 1;
      if style == EvalText {
        r, infoNonconst := FEval(vs, nonconst);
      } else {
        var a := w.apply(n.name, vs, Globals(funcRecursionLevel, runDisabled, currentUserFunc, lastCatchError));
        r, infoNonconst := a.outcome, a.nonconst;
      }
      funcRecursionLevel := funcRecursionLevel - 1;
      if infoNonconst {
        nonconst := true;
      }
      if r.Val? && style == MakeConst {
        hidden := hidden || nonconst;
        nonconst := false;
      }
    }

    /** eval(), one level deeper than its caller, whose flag it does not see; its own is `infoNonconst`. */
    method FEval(vs: seq<Value>, ghost nonconst: bool) returns (r: Outcome, infoNonconst: bool)
      requires funcRecursionLevel <= MAX_RECURSION_LEVEL
      modifies this
      ensures var m := old(State(nonconst)).(level := old(funcRecursionLevel) - 1);
              EvalEval(w, vs, m) == Result(r, State(nonconst || infoNonconst).(level := m.level))
      ensures funcRecursionLevel == old(funcRecursionLevel)
      decreases Left(State(nonconst))
    {
      hide Eval, RefusedAtLimit;
      if |vs| < 1 {
        return Err(E_SWERR), false;
      }
      if !vs[0].Str? {
        return Err(E_BAD_TYPE), false;
      }
      var p := w.parse(vs[0].s);
      if p.ParseFail? {
        return Err(p.code), true;
      }
      var oldRunDisabled := runDisabled;
      runDisabled := runDisabled | RUN_IN_EVAL;
      r, infoNonconst := EvaluateExprNode(p.n, [], false);
      runDisabled := oldRunDisabled;
    }

    method CallLazy(style: Style, args: seq<Node>, locals: seq<Value>, nonconst0: bool)
      returns (r: Outcome, nonconst: bool)
      modifies this
      ensures EvalLazy(w, style, args, locals, old(State(nonconst0))) == Result(r, State(nonconst))
      decreases Left(State(nonconst0)), args, 1
    {
      hide Eval, EvalIif, EvalIsAny, Chosen, RefusedAtLimit;
      nonconst := nonconst0;
      if style == Iif {
        r, nonconst := FIif(args, locals, nonconst);
        return;
      }
      if args == [] {
        return Err(E_SWERR), nonconst;
      }
      match style
      case IsAny => r, nonconst := FIsAny(args, locals, nonconst);
      case Choose => r, nonconst := FChoose(args, locals, nonconst);
      case Catch => r, nonconst := FCatch(args, locals, nonconst);
      case ValueOf => r, nonconst := FValue(args, locals, nonconst);
      case IsConst => r, nonconst := FIsconst(args, locals, nonconst);
      case _ => return Err(E_SWERR), nonconst;
    }

    method FIif(args: seq<Node>, locals: seq<Value>, nonconst0: bool) returns (r: Outcome, nonconst: bool)
      modifies this
      ensures EvalLazy(w, Iif, args, locals, old(State(nonconst0))) == Result(r, State(nonconst))
      decreases Left(State(nonconst0)), args, 0
    {
      hide Eval, RefusedAtLimit;
      nonconst := nonconst0;
      if |args| % 2 == 0 {
        return Err(E_IIF_ODD), nonconst;
      }
      ghost var all := EvalIif(w, args, locals, State(nonconst0));
      var cur := 0;
      while cur + 1 < |args|
        invariant 0 <= cur < |args| && cur % 2 == 0 && funcRecursionLevel == old(funcRecursionLevel)
        invariant EvalIif(w, args[cur..], locals, State(nonconst)) == all
        decreases |args| - cur
      {
        assert args[cur..][2..] == args[cur + 2..];
        r, nonconst := EvaluateExprNode(args[cur], locals, nonconst);
        if r.Err? {
          return;
        }
        if Truthy(r.v) {
          r, nonconst := EvaluateExprNode(args[cur + 1], locals, nonconst);
          return;
        }
        cur := cur + 2;
      }
      r, nonconst := EvaluateExprNode(args[cur], locals, nonconst);
    }

    method FIsAny(args: seq<Node>, locals: seq<Value>, nonconst0: bool) returns (r: Outcome, nonconst: bool)
      requires args != []
      modifies this
      ensures EvalLazy(w, IsAny, args, locals, old(State(nonconst0))) == Result(r, State(nonconst))
      decreases Left(State(nonconst0)), args, 0
    {
      hide Eval, RefusedAtLimit;
      r, nonconst := EvaluateExprNode(args[0], locals, nonconst0);
      if r.Err? {
        return;
      }
      var v := r.v;
      ghost var all := EvalIsAny(w, v, args[1..], locals, State(nonconst));
      var cur := 1;
      while cur < |args|
        invariant 1 <= cur <= |args| && funcRecursionLevel == old(funcRecursionLevel)
        invariant EvalIsAny(w, v, args[cur..], locals, State(nonconst)) == all
      {
        assert args[cur..][1..] == args[cur + 1..];
        r, nonconst := EvaluateExprNode(args[cur], locals, nonconst);
        if r.Err? {
          return;
        }
        if r.v == v {
          return Bool(true), nonconst;
        }
        cur := cur + 1;
      }
      return Bool(false), nonconst;
    }

    method FChoose(args: seq<Node>, locals: seq<Value>, nonconst0: bool) returns (r: Outcome, nonconst: bool)
      modifies this
      ensures EvalLazy(w, Choose, args, locals, old(State(nonconst0))) == Result(r, State(nonconst))
      decreases Left(State(nonconst0)), args, 0
    {
      hide Eval, RefusedAtLimit;
      nonconst := nonconst0;
      if |args| < 2 {
        return Err(E_SWERR), nonconst;
      }
      r, nonconst := EvaluateExprNode(args[0], locals, nonconst);
      if r.Err? {
        return;
      }
      if !r.v.Int? {
        return Err(E_BAD_TYPE), nonconst;
      }
      var n := r.v.v;
      if n < 1 {
        n := 1;
      }
      if n > |args| - 1 {
        n := |args| - 1;
      }
      r, nonconst := EvaluateExprNode(args[n], locals, nonconst);
    }

    method FCatch(args: seq<Node>, locals: seq<Value>, nonconst0: bool) returns (r: Outcome, nonconst: bool)
      modifies this
      ensures EvalLazy(w, Catch, args, locals, old(State(nonconst0))) == Result(r, State(nonconst))
      decreases Left(State(nonconst0)), args, 0
    {
      hide Eval, RefusedAtLimit;
      nonconst := nonconst0;
      if |args| < 2 {
        return Err(E_SWERR), nonconst;
      }
      r, nonconst := EvaluateExprNode(args[0], locals, nonconst);
      if r.Val? {
        return;
      }
      lastCatchError := r.code;
      r, nonconst := EvaluateExprNode(args[1], locals, nonconst);
    }

    method FValue(args: seq<Node>, locals: seq<Value>, nonconst0: bool) returns (r: Outcome, nonconst: bool)
      requires args != []
      modifies this
      ensures EvalLazy(w, ValueOf, args, locals, old(State(nonconst0))) == Result(r, State(nonconst))
      decreases Left(State(nonconst0)), args, 0
    {
      hide Eval, RefusedAtLimit;
      r, nonconst := EvaluateExprNode(args[0], locals, nonconst0);
      if r.Err? {
        return;
      }
      if !r.v.Str? {
        return Err(E_BAD_TYPE), nonconst;
      }
      if r.v.s in w.vars {
        var v := w.vars[r.v.s];
        return Val(v.value), nonconst || !v.isConstant;
      }
      if |args| == 1 {
        return Err(E_NOSUCH_VAR), nonconst;
      }
      nonconst := true;
      r, nonconst := EvaluateExprNode(args[1], locals, nonconst);
    }

    method FIsconst(args: seq<Node>, locals: seq<Value>, nonconst0: bool) returns (r: Outcome, nonconst: bool)
      requires args != []
      modifies this
      ensures EvalLazy(w, IsConst, args, locals, old(State(nonconst0))) == Result(r, State(nonconst))
      decreases Left(State(nonconst0)), args, 0
    {
      hide Eval, RefusedAtLimit;
      var myNonconst;
      r, myNonconst := EvaluateExprNode(args[0], locals, false);
      hidden := hidden || myNonconst;
      nonconst := nonconst0;
      if r.Val? {
        r := Bool(!myNonconst);
      }
    }
  }

  function Prepended(vs: seq<Value>, r: Results): Results {
    match r
    case Values(vs', m) => Values(vs + vs', m)
    case Failure(code, m) => r
  }

  lemma PrependedMore(vs: seq<Value>, v: Value, r: Results)
    ensures Prepended(vs + [v], r)
            == Prepended(vs, match r case Values(vs', m) => Values([v] + vs', m) case Failure(code, m) => r)
  {
    if r.Values? {
      assert vs + [v] + r.vs == vs + ([v] + r.vs);
    }
  }
}
