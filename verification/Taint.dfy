/**
 The flag that marks an evaluation as not constant can be trusted.
 */
module Taint {
  import opened Bytes
  import opened Expr
  import opened Operators
  import opened ExprEval

  /** Names are defined in one map exactly if in the other, and constant ones have the same value. */
  ghost predicate SameConstants(a: map<Text, VarInfo>, b: map<Text, VarInfo>) {
    a.Keys == b.Keys && forall name | name in a && a[name].isConstant :: b[name] == a[name]
  }

  /** Constant built-in functions, while they do not say otherwise, look at nothing but their arguments. */
  ghost predicate SamePure(w: World, w': World) {
    forall name, vs, g | name in w.builtins && w.builtins[name].isConstant && !w.apply(name, vs, g).nonconst ::
      w'.apply(name, vs, g) == w.apply(name, vs, g)
  }

  /** Another state of the program, with the same functions and the same constants. */
  ghost predicate Agree(w: World, w': World) {
    && w'.funcs == w.funcs && w'.builtins == w.builtins && w'.parse == w.parse && w'.format == w.format
    && w'.nodeLimit == w.nodeLimit && w'.disabled == w.disabled
    && SameConstants(w.vars, w'.vars) && SameConstants(w.sysVars, w'.sysVars) && SamePure(w, w')
  }

  /** Unless it is hidden, the flag stays set; and where it is not set, the other state gives the same. */
  predicate Sound(m: Machine, r: Result, r': Result) {
    !r.m.hidden ==> (m.nonconst ==> r.m.nonconst) && (!r.m.nonconst ==> r' == r)
  }

  predicate SoundArgs(m: Machine, r: Results, r': Results) {
    !r.m.hidden ==> (m.nonconst ==> r.m.nonconst) && (!r.m.nonconst ==> r' == r)
  }

  /**
   If an evaluation leaves the flag clear, every other state with the same
   functions, defined names and constant values gives the same value or error,
   and leaves the same counters; unless on the way const() has cleared a set flag
   or isconst() has told that its argument is not constant.
   */
  lemma {:induction false} EvalSound(w: World, w': World, n: Node, locals: seq<Value>, m0: Machine)
    requires Agree(w, w')
    ensures Sound(m0, Eval(w, n, locals, m0), Eval(w', n, locals, m0))
    decreases Left(m0), n, 2
  {
    hide EvalBuiltin, EvalUser, Agree, Binary, Negated, Truthy;
    AgreeOn(w, w');
    var m := m0.(nodes := m0.nodes + 1);
    if !w.disabled && !(w.nodeLimit > 0 && m0.nodes >= w.nodeLimit) {
      match n
      case Builtin(name, args) =>
        if name in w.builtins {
          BuiltinSound(w, w', n, locals, Tainted(m, w.builtins[name].isConstant));
        }
      case User(_, _) => UserSound(w, w', n, locals, m);
      case Not(kid) => EvalSound(w, w', kid, locals, m);
      case Minus(kid) => EvalSound(w, w', kid, locals, m);
      case Bin(_, left, right) =>
        EvalSound(w, w', left, locals, m);
        EvalSound(w, w', right, locals, Eval(w, left, locals, m).m);
      case _ =>
    }
  }

  lemma AgreeOn(w: World, w': World)
    requires Agree(w, w')
    ensures w'.funcs == w.funcs && w'.builtins == w.builtins && w'.parse == w.parse && w'.format == w.format
    ensures w'.nodeLimit == w.nodeLimit && w'.disabled == w.disabled
    ensures SameConstants(w.vars, w'.vars) && SameConstants(w.sysVars, w'.sysVars)
  {
  }

  lemma {:induction false} ArgsSound(w: World, w': World, args: seq<Node>, locals: seq<Value>, m: Machine)
    requires Agree(w, w')
    ensures SoundArgs(m, EvalArgs(w, args, locals, m), EvalArgs(w', args, locals, m))
    decreases Left(m), args
  {
    hide Agree, Eval;
    if args != [] {
      EvalSound(w, w', args[0], locals, m);
      ArgsSound(w, w', args[1..], locals, Eval(w, args[0], locals, m).m);
    }
  }

  lemma {:induction false} UserSound(w: World, w': World, n: Node, locals: seq<Value>, m: Machine)
    requires Agree(w, w') && n.User?
    ensures Sound(m, EvalUser(w, n, locals, m), EvalUser(w', n, locals, m))
    decreases Left(m), n, 1
  {
    hide Agree, EvalArgs, Eval;
    AgreeOn(w, w');
    if n.name in w.funcs {
      var f := w.funcs[n.name];
      if |n.args| == f.nargs {
        ArgsSound(w, w', n.args, locals, m);
        var a := EvalArgs(w, n.args, locals, m);
        if a.Values? && a.m.level < MAX_RECURSION_LEVEL {
          EvalSound(w, w', f.body, a.vs, Entered(a.m, n.name, f));
        }
      }
    }
  }

  lemma {:induction false} BuiltinSound(w: World, w': World, n: Node, locals: seq<Value>, m: Machine)
    requires Agree(w, w') && n.Builtin? && n.name in w.builtins
    requires !w.builtins[n.name].isConstant ==> m.nonconst
    ensures n.name in w'.builtins && Sound(m, EvalBuiltin(w, n, locals, m), EvalBuiltin(w', n, locals, m))
    decreases Left(m), n, 1
  {
    hide Agree, EvalArgs, EvalLazy, EvalEval, Applied;
    AgreeOn(w, w');
    var f := w.builtins[n.name];
    if OwnArgs(f.style) {
      ArgsSound(w, w', n.args, locals, m);
      var a := EvalArgs(w, n.args, locals, m);
      if a.Values? && m.level < MAX_RECURSION_LEVEL {
        if f.style == EvalText {
          EvalEvalSound(w, w', a.vs, a.m);
        } else {
          AppliedSound(w, w', f.style, n.name, a.vs, a.m);
        }
      }
    } else if m.level < MAX_RECURSION_LEVEL {
      LazySound(w, w', f.style, n.args, locals, m.(level := m.level + 1));
    }
  }

  lemma {:induction false} EvalEvalSound(w: World, w': World, vs: seq<Value>, m: Machine)
    requires Agree(w, w') && m.level < MAX_RECURSION_LEVEL
    ensures Sound(m, EvalEval(w, vs, m), EvalEval(w', vs, m))
    decreases Left(m) - 1
  {
    hide Agree, Eval;
    AgreeOn(w, w');
    if |vs| >= 1 && vs[0].Str? && w.parse(vs[0].s).ParseOk? {
      EvalSound(w, w', w.parse(vs[0].s).n, [], InEval(m));
    }
  }

  lemma AppliedSound(w: World, w': World, style: Style, name: Text, vs: seq<Value>, m: Machine)
    requires Agree(w, w') && name in w.builtins && (!w.builtins[name].isConstant ==> m.nonconst || m.hidden)
    ensures Sound(m, Applied(w, style, name, vs, m), Applied(w', style, name, vs, m))
  {
  }

  lemma {:induction false} LazySound(w: World, w': World, style: Style, args: seq<Node>, locals: seq<Value>, m: Machine)
    requires Agree(w, w')
    ensures Sound(m, EvalLazy(w, style, args, locals, m), EvalLazy(w', style, args, locals, m))
    decreases Left(m), args, 1
  {
    hide Agree, Eval, EvalIif, EvalIsAny;
    AgreeOn(w, w');
    if args != [] {
      var arg := if style == IsConst then m.(nonconst := false) else m;
      EvalSound(w, w', args[0], locals, arg);
      var r := Eval(w, args[0], locals, arg);
      match style
      case Iif =>
        if |args| % 2 == 1 {
          IifSound(w, w', args, locals, m);
        }
      case Choose =>
        if |args| >= 2 && r.outcome.Val? && r.outcome.v.Int? {
          EvalSound(w, w', args[Chosen(r.outcome.v.v, |args|)], locals, r.m);
        }
      case IsAny =>
        if r.outcome.Val? {
          IsAnySound(w, w', r.outcome.v, args[1..], locals, r.m);
        }
      case Catch =>
        if |args| >= 2 && r.outcome.Err? {
          EvalSound(w, w', args[1], locals, r.m.(lastCatchError := r.outcome.code));
        }
      case ValueOf =>
        if |args| >= 2 && r.outcome.Val? {
          EvalSound(w, w', args[1], locals, r.m.(nonconst := true));
        }
      case _ =>
    }
  }

  lemma {:induction false} IifSound(w: World, w': World, args: seq<Node>, locals: seq<Value>, m: Machine)
    requires Agree(w, w') && |args| % 2 == 1
    ensures Sound(m, EvalIif(w, args, locals, m), EvalIif(w', args, locals, m))
    decreases Left(m), args, 0
  {
    hide Agree, Eval;
    EvalSound(w, w', args[0], locals, m);
    var r := Eval(w, args[0], locals, m);
    if |args| > 1 && r.outcome.Val? {
      if Truthy(r.outcome.v) {
        EvalSound(w, w', args[1], locals, r.m);
      } else {
        IifSound(w, w', args[2..], locals, r.m);
      }
    }
  }

  lemma {:induction false} IsAnySound(w: World, w': World, v: Value, args: seq<Node>, locals: seq<Value>, m: Machine)
    requires Agree(w, w')
    ensures Sound(m, EvalIsAny(w, v, args, locals, m), EvalIsAny(w', v, args, locals, m))
    decreases Left(m), args, 0
  {
    hide Agree, Eval;
    if args != [] {
      EvalSound(w, w', args[0], locals, m);
      var r := Eval(w, args[0], locals, m);
      if r.outcome.Val? {
        IsAnySound(w, w', v, args[1..], locals, r.m);
      }
    }
  }

  // ----- Programs without const(), isconst() and eval() -----

  /** None of the three is called anywhere in the tree. */
  ghost predicate Plain(w: World, n: Node) {
    match n
    case Builtin(name, args) =>
      && (name in w.builtins ==> w.builtins[name].style !in {MakeConst, IsConst, EvalText})
      && forall i | 0 <= i < |args| :: Plain(w, args[i])
    case User(_, args) => forall i | 0 <= i < |args| :: Plain(w, args[i])
    case Not(kid) => Plain(w, kid)
    case Minus(kid) => Plain(w, kid)
    case Bin(_, l, r) => Plain(w, l) && Plain(w, r)
    case _ => true
  }

  ghost predicate PlainArgs(w: World, args: seq<Node>) {
    forall i | 0 <= i < |args| :: Plain(w, args[i])
  }

  ghost predicate PlainFuncs(w: World) {
    forall name | name in w.funcs :: Plain(w, w.funcs[name].body)
  }

  /** For such programs the flag can simply be trusted. */
  lemma PlainSound(w: World, w': World, n: Node, locals: seq<Value>, m: Machine)
    requires Agree(w, w') && PlainFuncs(w) && Plain(w, n) && !m.hidden
    ensures var r := Eval(w, n, locals, m); !r.m.nonconst ==> Eval(w', n, locals, m) == r
  {
    hide Agree, PlainFuncs, Plain, Eval;
    EvalSound(w, w', n, locals, m);
    PlainHidesNothing(w, n, locals, m);
  }

  lemma {:induction false} PlainHidesNothing(w: World, n: Node, locals: seq<Value>, m0: Machine)
    requires PlainFuncs(w) && Plain(w, n)
    ensures Eval(w, n, locals, m0).m.hidden == m0.hidden
    decreases Left(m0), n, 2
  {
    hide EvalBuiltin, EvalUser, PlainFuncs, Binary, Negated, Truthy;
    var m := m0.(nodes := m0.nodes + 1);
    if !w.disabled && !AtLimit(w, m0) {
      match n
      case Builtin(name, args) =>
        if name in w.builtins {
          PlainBuiltin(w, n, locals, Tainted(m, w.builtins[name].isConstant));
        }
      case User(_, _) => PlainUser(w, n, locals, m);
      case Not(kid) => PlainHidesNothing(w, kid, locals, m);
      case Minus(kid) => PlainHidesNothing(w, kid, locals, m);
      case Bin(_, left, right) =>
        PlainHidesNothing(w, left, locals, m);
        PlainHidesNothing(w, right, locals, Eval(w, left, locals, m).m);
      case _ =>
    }
  }

  lemma {:induction false} PlainArguments(w: World, args: seq<Node>, locals: seq<Value>, m: Machine)
    requires PlainFuncs(w) && PlainArgs(w, args)
    ensures EvalArgs(w, args, locals, m).m.hidden == m.hidden
    decreases Left(m), args
  {
    hide PlainFuncs, Eval, Plain;
    if args != [] {
      PlainHidesNothing(w, args[0], locals, m);
      PlainArguments(w, args[1..], locals, Eval(w, args[0], locals, m).m);
    }
  }

  lemma {:induction false} PlainUser(w: World, n: Node, locals: seq<Value>, m: Machine)
    requires PlainFuncs(w) && Plain(w, n) && n.User?
    ensures EvalUser(w, n, locals, m).m.hidden == m.hidden
    decreases Left(m), n, 1
  {
    hide EvalArgs, Eval;
    if n.name in w.funcs {
      PlainArguments(w, n.args, locals, m);
      var a := EvalArgs(w, n.args, locals, m);
      if a.Values? && a.m.level < MAX_RECURSION_LEVEL {
        PlainHidesNothing(w, w.funcs[n.name].body, a.vs, Entered(a.m, n.name, w.funcs[n.name]));
      }
    }
  }

  lemma {:induction false} PlainBuiltin(w: World, n: Node, locals: seq<Value>, m: Machine)
    requires PlainFuncs(w) && Plain(w, n) && n.Builtin? && n.name in w.builtins
    ensures EvalBuiltin(w, n, locals, m).m.hidden == m.hidden
    decreases Left(m), n, 1
  {
    hide EvalArgs, EvalLazy, PlainFuncs;
    if OwnArgs(w.builtins[n.name].style) {
      PlainArguments(w, n.args, locals, m);
    } else if m.level < MAX_RECURSION_LEVEL {
      PlainLazy(w, w.builtins[n.name].style, n.args, locals, m.(level := m.level + 1));
    }
  }

  lemma {:induction false} PlainLazy(w: World, style: Style, args: seq<Node>, locals: seq<Value>, m: Machine)
    requires PlainFuncs(w) && PlainArgs(w, args) && style != IsConst
    ensures EvalLazy(w, style, args, locals, m).m.hidden == m.hidden
    decreases Left(m), args, 1
  {
    hide Eval, EvalIif, EvalIsAny, PlainFuncs, Plain;
    if args != [] {
      PlainHidesNothing(w, args[0], locals, m);
      var r := Eval(w, args[0], locals, m);
      match style
      case Iif =>
        if |args| % 2 == 1 {
          PlainIif(w, args, locals, m);
        }
      case Choose =>
        if |args| >= 2 && r.outcome.Val? && r.outcome.v.Int? {
          PlainHidesNothing(w, args[Chosen(r.outcome.v.v, |args|)], locals, r.m);
        }
      case IsAny =>
        if r.outcome.Val? {
          PlainIsAny(w, r.outcome.v, args[1..], locals, r.m);
        }
      case Catch =>
        if |args| >= 2 && r.outcome.Err? {
          PlainHidesNothing(w, args[1], locals, r.m.(lastCatchError := r.outcome.code));
        }
      case ValueOf =>
        if |args| >= 2 && r.outcome.Val? {
          PlainHidesNothing(w, args[1], locals, r.m.(nonconst := true));
        }
      case _ =>
    }
  }

  lemma {:induction false} PlainIif(w: World, args: seq<Node>, locals: seq<Value>, m: Machine)
    requires PlainFuncs(w) && PlainArgs(w, args) && |args| % 2 == 1
    ensures EvalIif(w, args, locals, m).m.hidden == m.hidden
    decreases Left(m), args, 0
  {
    hide Eval, PlainFuncs, Plain;
    PlainHidesNothing(w, args[0], locals, m);
    var r := Eval(w, args[0], locals, m);
    if |args| > 1 && r.outcome.Val? {
      if Truthy(r.outcome.v) {
        PlainHidesNothing(w, args[1], locals, r.m);
      } else {
        PlainIif(w, args[2..], locals, r.m);
      }
    }
  }

  lemma {:induction false} PlainIsAny(w: World, v: Value, args: seq<Node>, locals: seq<Value>, m: Machine)
    requires PlainFuncs(w) && PlainArgs(w, args)
    ensures EvalIsAny(w, v, args, locals, m).m.hidden == m.hidden
    decreases Left(m), args, 0
  {
    hide Eval, PlainFuncs, Plain;
    if args != [] {
      PlainHidesNothing(w, args[0], locals, m);
      var r := Eval(w, args[0], locals, m);
      if r.outcome.Val? {
        PlainIsAny(w, v, args[1..], locals, r.m);
      }
    }
  }

  // ----- What the theorem leaves out, and why -----

  lemma EvalVar(w: World, x: Text, m: Machine)
    requires !w.disabled && w.nodeLimit == 0 && x in w.vars
    ensures Eval(w, Var(x), [], m)
            == Result(Val(w.vars[x].value), Tainted(m.(nodes := m.nodes + 1), w.vars[x].isConstant))
  {
  }

  lemma OneArg(w: World, n: Node, m: Machine)
    requires Eval(w, n, [], m).outcome.Val?
    ensures EvalArgs(w, [n], [], m) == Values([Eval(w, n, [], m).outcome.v], Eval(w, n, [], m).m)
  {
    hide Eval;
    assert [n][1..] == [];
  }

  /** const() of a variable has its value, and leaves the flag clear. */
  lemma ConstAnswers(w: World, c: Text, x: Text, m: Machine)
    requires !w.disabled && w.nodeLimit == 0 && x in w.vars && m.level < MAX_RECURSION_LEVEL
    requires c in w.builtins && w.builtins[c] == BuiltinInfo(1, 1, false, true, MakeConst)
    requires forall v, s :: w.apply(c, [v], s) == Answer(Val(v), false)
    ensures var r := Eval(w, Builtin(c, [Var(x)]), [], m); r.outcome == Val(w.vars[x].value) && !r.m.nonconst
  {
    hide EvalArgs;
    var m1 := m.(nodes := m.nodes + 1);
    EvalVar(w, x, m1);
    OneArg(w, Var(x), m1);
  }

  /** const() clears the flag over a variable that is not constant. */
  lemma ConstLaunders(w: World, w': World, c: Text, x: Text, m: Machine)
    requires !w.disabled && w.nodeLimit == 0 && w' == w.(vars := w'.vars) && x in w.vars && x in w'.vars
    requires !w.vars[x].isConstant && w'.vars[x].value != w.vars[x].value && m.level < MAX_RECURSION_LEVEL
    requires c in w.builtins && w.builtins[c] == BuiltinInfo(1, 1, false, true, MakeConst)
    requires forall v, s :: w.apply(c, [v], s) == Answer(Val(v), false)
    ensures var n := Builtin(c, [Var(x)]);
            !Eval(w, n, [], m).m.nonconst && Eval(w', n, [], m).outcome != Eval(w, n, [], m).outcome
  {
    hide Eval;
    ConstAnswers(w, c, x, m);
    ConstAnswers(w', c, x, m);
  }

  /** const() of anything clears the flag of all that was evaluated before it: x + const(1) counts as constant. */
  lemma ConstClearsAll(w: World, c: Text, x: Text, k: int, m: Machine)
    requires !w.disabled && w.nodeLimit == 0 && x in w.vars && w.vars[x].value.Int? && m.level < MAX_RECURSION_LEVEL
    requires c in w.builtins && w.builtins[c] == BuiltinInfo(1, 1, false, true, MakeConst)
    requires forall v, s :: w.apply(c, [v], s) == Answer(Val(v), false)
    ensures var r := Eval(w, Bin(Add, Var(x), Builtin(c, [Const(Int(k))])), [], m);
            !r.m.nonconst && r.outcome == Sum(w.format, w.vars[x].value, Int(k))
  {
    hide EvalArgs, EvalBuiltin, EvalUser, Sum, RefusedAtLimit;
    var m1 := m.(nodes := m.nodes + 1);
    EvalVar(w, x, m1);
    ConstOfConst(w, c, k, Eval(w, Var(x), [], m1).m);
  }

  lemma ConstOfConst(w: World, c: Text, k: int, m: Machine)
    requires !w.disabled && w.nodeLimit == 0 && m.level < MAX_RECURSION_LEVEL
    requires c in w.builtins && w.builtins[c] == BuiltinInfo(1, 1, false, true, MakeConst)
    requires forall v, s :: w.apply(c, [v], s) == Answer(Val(v), false)
    ensures var r := Eval(w, Builtin(c, [Const(Int(k))]), [], m); r.outcome == Val(Int(k)) && !r.m.nonconst
  {
    hide EvalArgs;
    OneArg(w, Const(Int(k)), m.(nodes := m.nodes + 1));
  }

  /** eval() of a text does what the text does: eval("const(x)") hides what const(x) hides. */
  lemma EvalLaunders(w: World, w': World, e: Text, t: Text, c: Text, x: Text, m: Machine)
    requires !w.disabled && w.nodeLimit == 0 && w' == w.(vars := w'.vars) && x in w.vars && x in w'.vars && !m.nonconst
    requires !w.vars[x].isConstant && w'.vars[x].value != w.vars[x].value && m.level + 1 < MAX_RECURSION_LEVEL
    requires c in w.builtins && w.builtins[c] == BuiltinInfo(1, 1, false, true, MakeConst)
    requires e in w.builtins && w.builtins[e] == BuiltinInfo(1, 1, false, true, EvalText)
    requires w.parse(t) == ParseOk(Builtin(c, [Var(x)])) && forall v, s :: w.apply(c, [v], s) == Answer(Val(v), false)
    ensures var n := Builtin(e, [Const(Str(t))]);
            !Eval(w, n, [], m).m.nonconst && Eval(w', n, [], m).outcome != Eval(w, n, [], m).outcome
  {
    hide Eval;
    EvalAnswers(w, e, t, c, x, m);
    EvalAnswers(w', e, t, c, x, m);
  }

  lemma EvalAnswers(w: World, e: Text, t: Text, c: Text, x: Text, m: Machine)
    requires !w.disabled && w.nodeLimit == 0 && x in w.vars && !m.nonconst && m.level + 1 < MAX_RECURSION_LEVEL
    requires c in w.builtins && w.builtins[c] == BuiltinInfo(1, 1, false, true, MakeConst)
    requires e in w.builtins && w.builtins[e] == BuiltinInfo(1, 1, false, true, EvalText)
    requires w.parse(t) == ParseOk(Builtin(c, [Var(x)])) && forall v, s :: w.apply(c, [v], s) == Answer(Val(v), false)
    ensures var r := Eval(w, Builtin(e, [Const(Str(t))]), [], m); r.outcome == Val(w.vars[x].value) && !r.m.nonconst
  {
    hide EvalArgs, EvalEval;
    var m1 := m.(nodes := m.nodes + 1);
    OneArg(w, Const(Str(t)), m1);
    EvalOfText(w, t, c, x, Eval(w, Const(Str(t)), [], m1).m);
  }

  lemma EvalOfText(w: World, t: Text, c: Text, x: Text, m: Machine)
    requires !w.disabled && w.nodeLimit == 0 && x in w.vars && m.level + 1 < MAX_RECURSION_LEVEL
    requires c in w.builtins && w.builtins[c] == BuiltinInfo(1, 1, false, true, MakeConst)
    requires w.parse(t) == ParseOk(Builtin(c, [Var(x)])) && forall v, s :: w.apply(c, [v], s) == Answer(Val(v), false)
    ensures var r := EvalEval(w, [Str(t)], m); r.outcome == Val(w.vars[x].value) && r.m.nonconst == m.nonconst
  {
    hide Eval;
    ConstAnswers(w, c, x, InEval(m));
  }

  /** isconst() of a variable says whether it is constant, and leaves the flag alone. */
  lemma IsconstAnswers(w: World, c: Text, x: Text, m: Machine)
    requires !w.disabled && w.nodeLimit == 0 && x in w.vars && m.level < MAX_RECURSION_LEVEL
    requires c in w.builtins && w.builtins[c] == BuiltinInfo(1, 1, false, true, IsConst)
    ensures var r := Eval(w, Builtin(c, [Var(x)]), [], m);
            r.outcome == Bool(w.vars[x].isConstant) && r.m.nonconst == m.nonconst
  {
    hide EvalArgs, EvalLazy;
    LazyIsconst(w, x, m.(nodes := m.nodes + 1, level := m.level + 1));
  }

  lemma LazyIsconst(w: World, x: Text, m: Machine)
    requires !w.disabled && w.nodeLimit == 0 && x in w.vars
    ensures var r := EvalLazy(w, IsConst, [Var(x)], [], m);
            r.outcome == Bool(w.vars[x].isConstant) && r.m.nonconst == m.nonconst
  {
    hide Eval;
    EvalVar(w, x, m.(nonconst := false));
  }

  /** isconst() tells a variable that is constant from one that is not, and leaves the flag clear. */
  lemma IsconstTells(w: World, w': World, c: Text, x: Text, m: Machine)
    requires !w.disabled && w.nodeLimit == 0 && Agree(w, w') && !m.nonconst && m.level < MAX_RECURSION_LEVEL
    requires x in w.vars && !w.vars[x].isConstant && w'.vars[x].isConstant
    requires c in w.builtins && w.builtins[c] == BuiltinInfo(1, 1, false, true, IsConst)
    ensures var n := Builtin(c, [Var(x)]);
            && Eval(w, n, [], m).outcome == Bool(false) && Eval(w', n, [], m).outcome == Bool(true)
            && !Eval(w, n, [], m).m.nonconst
  {
    hide Eval;
    IsconstAnswers(w, c, x, m);
    IsconstAnswers(w', c, x, m);
  }

  /** A variable that is missing is reported without setting the flag. */
  lemma MissingUnmarked(w: World, w': World, x: Text, m: Machine)
    requires !w.disabled && w.nodeLimit == 0 && w' == w.(vars := w'.vars) && x !in w.vars && x in w'.vars && !m.nonconst
    ensures !Eval(w, Var(x), [], m).m.nonconst && Eval(w', Var(x), [], m).outcome != Eval(w, Var(x), [], m).outcome
  {
  }
}
