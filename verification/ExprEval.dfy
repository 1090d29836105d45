/**
 The operators of expressions on values (src/expr.c).
 */
module Operators {
  import opened Bytes
  import opened Expr

  const INT_MIN := -0x8000_0000
  const INT_MAX := 0x7fff_ffff
  const MINUTES_PER_DAY := 1440

  datatype Code =
    | E_EXPR_DISABLED | E_EXPR_NODES_EXCEEDED | E_SWERR | E_NOSUCH_VAR | E_UNDEF_FUNC | E_2FEW_ARGS | E_2MANY_ARGS
    | E_RECURSIVE | E_IIF_ODD | E_BAD_TYPE | E_2HIGH | E_2LOW | E_DATE_OVER | E_DIV_ZERO | E_STRING_TOO_LONG
    | E_OTHER(n: int)

  datatype Outcome = Val(v: Value) | Err(code: Code)

  /** How values are written as strings, and how long strings can be (0: as long as you like). */
  datatype Format = Format(toStr: Value -> Text, maxStringLen: nat)

  predicate InInt(n: int) {
    INT_MIN <= n <= INT_MAX
  }

  predicate Truthy(v: Value) {
    match v
    case Str(s) => s != []
    case Int(n) => n != 0
    case Date(n) => n != 0
    case Time(n) => n != 0
    case DateTime(n) => n != 0
  }

  function Number(v: Value): int
    requires !v.Str?
  {
    match v
    case Int(n) => n
    case Date(n) => n
    case Time(n) => n
    case DateTime(n) => n
  }

  predicate SameType(a: Value, b: Value) {
    a.Int? == b.Int? && a.Str? == b.Str? && a.Date? == b.Date? && a.Time? == b.Time?
  }

  predicate StrLess(a: Text, b: Text) {
    b != [] && (a == [] || a[0] < b[0] || (a[0] == b[0] && StrLess(a[1..], b[1..])))
  }

  predicate Less(a: Value, b: Value)
    requires SameType(a, b)
  {
    if a.Str? then StrLess(a.s, b.s) else Number(a) < Number(b)
  }

  function Bool(b: bool): Outcome {
    Val(Int(if b then 1 else 0))
  }

  function Compare(op: BinOp, a: Value, b: Value): Outcome {
    if !SameType(a, b) then
      if op == Eq then Bool(false) else if op == Ne then Bool(true) else Err(E_BAD_TYPE)
    else
      match op
      case Eq => Bool(a == b)
      case Ne => Bool(a != b)
      case Lt => Bool(Less(a, b))
      case Gt => Bool(Less(b, a))
      case Le => Bool(!Less(b, a))
      case _ => Bool(!Less(a, b))
  }

  function Sum(f: Format, a: Value, b: Value): Outcome {
    if a.Str? || b.Str? then
      var s := f.toStr(a) + f.toStr(b);
      if f.maxStringLen > 0 && |s| > f.maxStringLen then Err(E_STRING_TOO_LONG) else Val(Str(s))
    else
      var n := Number(a) + Number(b);
      if a.Int? && b.Int? then
        if InInt(n) then Val(Int(n)) else Err(E_2HIGH)
      else if (a.Date? && b.Int?) || (a.Int? && b.Date?) then
        if InInt(n) && n >= 0 then Val(Date(n)) else Err(E_DATE_OVER)
      else if (a.DateTime? && (b.Int? || b.Time?)) || ((a.Int? || a.Time?) && b.DateTime?) then
        if InInt(n) && n >= 0 then Val(DateTime(n)) else Err(E_DATE_OVER)
      else if (a.Time? || a.Int?) && (b.Time? || b.Int?) then
        if InInt(n) then Val(Time(n % MINUTES_PER_DAY)) else Err(E_DATE_OVER)
      else Err(E_BAD_TYPE)
  }

  function Difference(a: Value, b: Value): Outcome {
    if a.Str? || b.Str? then Err(E_BAD_TYPE)
    else
      var n := Number(a) - Number(b);
      if a.Int? && b.Int? then
        if InInt(n) then Val(Int(n)) else Err(E_2HIGH)
      else if a.Date? && b.Int? then
        if InInt(n) && n >= 0 then Val(Date(n)) else Err(E_DATE_OVER)
      else if a.DateTime? && (b.Int? || b.Time?) then
        if InInt(n) && n >= 0 then Val(DateTime(n)) else Err(E_DATE_OVER)
      else if a.Time? && b.Int? then Val(Time(n % MINUTES_PER_DAY))
      else if SameType(a, b) then
        if InInt(n) then Val(Int(n)) else Err(E_DATE_OVER)
      else Err(E_BAD_TYPE)
  }

  function Repeated(s: Text, n: nat): Text {
    if n == 0 then [] else s + Repeated(s, n - 1)
  }

  function Product(f: Format, a: Value, b: Value): Outcome {
    if a.Int? && b.Int? then
      if InInt(a.v * b.v) then Val(Int(a.v * b.v)) else Err(E_2HIGH)
    else if (a.Int? && b.Str?) || (a.Str? && b.Int?) then
      var rep, s := if a.Int? then a.v else b.v, if a.Int? then b.s else a.s;
      if rep < 0 then Err(E_2LOW)
      else if rep == 0 || s == [] then Val(Str([]))
      else if |s| * rep >= INT_MAX then Err(E_STRING_TOO_LONG)
      else if f.maxStringLen > 0 && |s| * rep > f.maxStringLen then Err(E_STRING_TOO_LONG)
      else Val(Str(Repeated(s, rep)))
    else Err(E_BAD_TYPE)
  }

  /** Division truncates toward zero. */
  function Quotient(a: int, b: int): int
    requires b != 0
  {
    var q := Abs(a) / Abs(b);
    if (a < 0) == (b < 0) then q else -q
  }

  function Abs(a: int): nat {
    if a < 0 then -a else a
  }

  function Division(op: BinOp, a: Value, b: Value): Outcome {
    if a.Int? && b.Int? then
      if b.v == 0 then Err(E_DIV_ZERO)
      else if b.v == -1 && a.v == INT_MIN then Err(E_2HIGH)
      else if op == Div then Val(Int(Quotient(a.v, b.v)))
      else Val(Int(a.v - b.v * Quotient(a.v, b.v)))
    else Err(E_BAD_TYPE)
  }

  function Binary(f: Format, op: BinOp, a: Value, b: Value): Outcome {
    match op
    case Add => Sum(f, a, b)
    case Sub => Difference(a, b)
    case Mul => Product(f, a, b)
    case Div => Division(op, a, b)
    case Mod => Division(op, a, b)
    case _ => Compare(op, a, b)
  }

  function Negated(v: Value): Outcome {
    if !v.Int? then Err(E_BAD_TYPE) else if v.v == INT_MIN then Err(E_2LOW) else Val(Int(-v.v))
  }
}

/**
 The evaluator (src/expr.c, and the functions of src/funcs.c that evaluate their own arguments).
 */
module ExprEval {
  import opened Bytes
  import opened Expr
  import opened Operators

  const MAX_RECURSION_LEVEL := 1000
  const RUN_UF: bv8 := 0x10
  const RUN_IN_EVAL: bv8 := 0x08

  datatype VarInfo = VarInfo(value: Value, isConstant: bool)

  datatype UserFunc = UserFunc(nargs: nat, body: Node, isConstant: bool, runDisabled: bool)

  datatype Style = OldStyle | Iif | Choose | IsAny | Catch | ValueOf | IsConst | MakeConst | EvalText

  datatype BuiltinInfo = BuiltinInfo(min: nat, max: nat, unlimited: bool, isConstant: bool, style: Style)

  /**
   The global state that an evaluation changes.  The last part is bookkeeping:
   whether a set flag has been hidden, cleared by const() or told by isconst().
   */
  datatype Machine = Machine(level: int, nodes: nat, runDisabled: bv8, current: Text, lastCatchError: Code,
                             nonconst: bool, hidden: bool)

  /** What of it an old-style function can look at. */
  datatype Globals = Globals(level: int, runDisabled: bv8, current: Text, lastCatchError: Code)

  /** What an old-style function answers, and whether it says that the answer is not constant. */
  datatype Answer = Answer(outcome: Outcome, nonconst: bool)

  /** What eval() makes of a text. */
  datatype Parse = ParseOk(n: Node) | ParseFail(code: Code)

  /** What an evaluation only looks at; `apply` stands for the functions that evaluate nothing themselves. */
  datatype World = World(
    vars: map<Text, VarInfo>, funcs: map<Text, UserFunc>, sysVars: map<Text, VarInfo>, builtins: map<Text, BuiltinInfo>,
    apply: (Text, seq<Value>, Globals) -> Answer, parse: Text -> Parse, format: Format, nodeLimit: nat,
    disabled: bool)

  datatype Result = Result(outcome: Outcome, m: Machine)

  datatype Results = Values(vs: seq<Value>, m: Machine) | Failure(code: Code, m: Machine)

  /** The global state is put back, apart from what is counted and what is remembered on purpose. */
  predicate Restored(m: Machine, m': Machine) {
    && m'.level == m.level && m'.runDisabled == m.runDisabled && m'.current == m.current
    && m.nodes <= m'.nodes && (m.hidden ==> m'.hidden)
  }

  /** Only the evaluator itself refuses to evaluate more nodes. */
  ghost predicate Honest(w: World) {
    && (forall name, vs, g :: w.apply(name, vs, g).outcome != Err(E_EXPR_NODES_EXCEEDED))
    && forall t :: w.parse(t) != ParseFail(E_EXPR_NODES_EXCEEDED)
  }

  /** The limit on the nodes evaluated has been reached. */
  predicate AtLimit(w: World, m: Machine) {
    w.nodeLimit > 0 && m.nodes >= w.nodeLimit
  }

  /** A refusal comes only at the limit, and so nothing gets around it. */
  ghost predicate RefusedAtLimit(w: World, r: Result) {
    Honest(w) && r.outcome == Err(E_EXPR_NODES_EXCEEDED) ==> AtLimit(w, r.m)
  }

  function Left(m: Machine): nat {
    if m.level < MAX_RECURSION_LEVEL then MAX_RECURSION_LEVEL - m.level else 0
  }

  function Tainted(m: Machine, constant: bool): Machine {
    if constant then m else m.(nonconst := true)
  }

  function Eval(w: World, n: Node, locals: seq<Value>, m0: Machine): (r: Result)
    ensures Restored(m0, r.m) && RefusedAtLimit(w, r)
    decreases Left(m0), n, 2
  {
    if w.disabled then Result(Err(E_EXPR_DISABLED), m0)
    else if AtLimit(w, m0) then Result(Err(E_EXPR_NODES_EXCEEDED), m0)
    else
      var m := m0.(nodes := m0.nodes + 1);
      match n
      case Const(v) => Result(Val(v), m)
      case Var(name) =>
        if name !in w.vars then Result(Err(E_NOSUCH_VAR), m)
        else Result(Val(w.vars[name].value), Tainted(m, w.vars[name].isConstant))
      case Local(i) => Result(if i < |locals| then Val(locals[i]) else Err(E_SWERR), m)
      case SysVar(name) =>
        if name !in w.sysVars then Result(Err(E_SWERR), m)
        else Result(Val(w.sysVars[name].value), Tainted(m, w.sysVars[name].isConstant))
      case Builtin(name, args) =>
        if name !in w.builtins then Result(Err(E_SWERR), m)
        else EvalBuiltin(w, n, locals, Tainted(m, w.builtins[name].isConstant))
      case User(name, args) => EvalUser(w, n, locals, m)
      case Not(kid) =>
        var r := Eval(w, kid, locals, m);
        if r.outcome.Err? then r else Result(Bool(!Truthy(r.outcome.v)), r.m)
      case Minus(kid) =>
        var r := Eval(w, kid, locals, m);
        if r.outcome.Err? then r else Result(Negated(r.outcome.v), r.m)
      case Bin(op, left, right) =>
        var r := Eval(w, left, locals, m);
        if r.outcome.Err? then r
        else if (op == And && !Truthy(r.outcome.v)) || (op == Or && Truthy(r.outcome.v)) then r
        else
          var r' := Eval(w, right, locals, r.m);
          if r'.outcome.Err? || op == And || op == Or then r'
          else Result(Binary(w.format, op, r.outcome.v, r'.outcome.v), r'.m)
  }

  function EvalArgs(w: World, args: seq<Node>, locals: seq<Value>, m: Machine): (r: Results)
    ensures Restored(m, r.m) && (r.Values? ==> |r.vs| == |args|)
    ensures Honest(w) && r == Failure(E_EXPR_NODES_EXCEEDED, r.m) ==> AtLimit(w, r.m)
    decreases Left(m), args
  {
    if args == [] then Values([], m)
    else
      var r := Eval(w, args[0], locals, m);
      if r.outcome.Err? then Failure(r.outcome.code, r.m)
      else
        match EvalArgs(w, args[1..], locals, r.m)
        case Failure(code, m') => Failure(code, m')
        case Values(vs, m') => Values([r.outcome.v] + vs, m')
  }

  function EvalUser(w: World, n: Node, locals: seq<Value>, m: Machine): (r: Result)
    requires n.User?
    ensures Restored(m, r.m) && RefusedAtLimit(w, r)
    decreases Left(m), n, 1
  {
    if n.name !in w.funcs then Result(Err(E_UNDEF_FUNC), m)
    else
      var f := w.funcs[n.name];
      if |n.args| < f.nargs then Result(Err(E_2FEW_ARGS), m)
      else if |n.args| > f.nargs then Result(Err(E_2MANY_ARGS), m)
      else
        match EvalArgs(w, n.args, locals, m)
        case Failure(code, m') => Result(Err(code), m')
        case Values(vs, m') =>
          if m'.level >= MAX_RECURSION_LEVEL then Result(Err(E_RECURSIVE), m')
          else
            var r := Eval(w, f.body, vs, Entered(m', n.name, f));
            Result(r.outcome, r.m.(level := m'.level, runDisabled := m'.runDisabled, current := m'.current))
  }

  /** While the body of a user function runs. */
  function Entered(m: Machine, name: Text, f: UserFunc): Machine {
    Tainted(m, f.isConstant).(level := m.level + 1, current := name,
                              runDisabled := if f.runDisabled then m.runDisabled | RUN_UF else m.runDisabled)
  }

  function EvalBuiltin(w: World, n: Node, locals: seq<Value>, m: Machine): (r: Result)
    requires n.Builtin? && n.name in w.builtins
    ensures Restored(m, r.m) && RefusedAtLimit(w, r)
    decreases Left(m), n, 1
  {
    var f := w.builtins[n.name];
    if |n.args| < f.min then Result(Err(E_2FEW_ARGS), m)
    else if |n.args| > f.max && !f.unlimited then Result(Err(E_2MANY_ARGS), m)
    else if m.level >= MAX_RECURSION_LEVEL then Result(Err(E_RECURSIVE), m)
    else if OwnArgs(f.style) then
      match EvalArgs(w, n.args, locals, m)
      case Failure(code, m') => Result(Err(code), m')
      case Values(vs, m') => if f.style == EvalText then EvalEval(w, vs, m') else Applied(w, f.style, n.name, vs, m')
    else
      var r := EvalLazy(w, f.style, n.args, locals, m.(level := m.level + 1));
      Result(r.outcome, r.m.(level := r.m.level - 1))
  }

  /** Old-style functions get their arguments evaluated. */
  predicate OwnArgs(style: Style) {
    style == OldStyle || style == MakeConst || style == EvalText
  }

  function Seen(m: Machine): Globals {
    Globals(m.level, m.runDisabled, m.current, m.lastCatchError)
  }

  /** eval(): the text is parsed and evaluated one level deeper, without RUN and with a flag of its own. */
  function EvalEval(w: World, vs: seq<Value>, m: Machine): (r: Result)
    requires m.level < MAX_RECURSION_LEVEL
    ensures Restored(m, r.m) && RefusedAtLimit(w, r)
    decreases Left(m) - 1
  {
    if |vs| < 1 then Result(Err(E_SWERR), m)
    else if !vs[0].Str? then Result(Err(E_BAD_TYPE), m)
    else
      match w.parse(vs[0].s)
      case ParseFail(code) => Result(Err(code), m.(nonconst := true))
      case ParseOk(n) =>
        var r := Eval(w, n, [], InEval(m));
        Result(r.outcome, r.m.(level := m.level, runDisabled := m.runDisabled, nonconst := m.nonconst || r.m.nonconst))
  }

  /** While the text of an eval() is evaluated. */
  function InEval(m: Machine): Machine {
    m.(level := m.level + 1, runDisabled := m.runDisabled | RUN_IN_EVAL, nonconst := false)
  }

  /** An old-style function on its arguments; const() also clears the flag. */
  function Applied(w: World, style: Style, name: Text, vs: seq<Value>, m: Machine): (r: Result)
    ensures Restored(m, r.m) && RefusedAtLimit(w, r)
  {
    var a := w.apply(name, vs, Seen(m).(level := m.level + 1));
    var m' := Tainted(m, !a.nonconst);
    Result(a.outcome, if a.outcome.Val? && style == MakeConst then Cleared(m') else m')
  }

  function Cleared(m: Machine): Machine {
    m.(nonconst := false, hidden := m.hidden || m.nonconst)
  }

  /** The functions that evaluate their own arguments, and only those they need. */
  function EvalLazy(w: World, style: Style, args: seq<Node>, locals: seq<Value>, m: Machine): (r: Result)
    ensures Restored(m, r.m) && RefusedAtLimit(w, r)
    decreases Left(m), args, 1
  {
    match style
    case Iif => if |args| % 2 == 0 then Result(Err(E_IIF_ODD), m) else EvalIif(w, args, locals, m)
    case Choose =>
      if |args| < 2 then Result(Err(E_SWERR), m)
      else
        var r := Eval(w, args[0], locals, m);
        if r.outcome.Err? then r
        else if !r.outcome.v.Int? then Result(Err(E_BAD_TYPE), r.m)
        else Eval(w, args[Chosen(r.outcome.v.v, |args|)], locals, r.m)
    case IsAny =>
      if |args| < 1 then Result(Err(E_SWERR), m)
      else
        var r := Eval(w, args[0], locals, m);
        if r.outcome.Err? then r else EvalIsAny(w, r.outcome.v, args[1..], locals, r.m)
    case Catch =>
      if |args| < 2 then Result(Err(E_SWERR), m)
      else
        var r := Eval(w, args[0], locals, m);
        if r.outcome.Val? then r else Eval(w, args[1], locals, r.m.(lastCatchError := r.outcome.code))
    case ValueOf =>
      if |args| < 1 then Result(Err(E_SWERR), m)
      else
        var r := Eval(w, args[0], locals, m);
        if r.outcome.Err? then r
        else if !r.outcome.v.Str? then Result(Err(E_BAD_TYPE), r.m)
        else if r.outcome.v.s in w.vars then
          var v := w.vars[r.outcome.v.s]; Result(Val(v.value), Tainted(r.m, v.isConstant))
        else if |args| == 1 then Result(Err(E_NOSUCH_VAR), r.m)
        else Eval(w, args[1], locals, r.m.(nonconst := true))
    case IsConst =>
      if |args| < 1 then Result(Err(E_SWERR), m)
      else
        var r := Eval(w, args[0], locals, m.(nonconst := false));
        Result(if r.outcome.Err? then r.outcome else Bool(!r.m.nonconst),
               r.m.(nonconst := m.nonconst, hidden := r.m.hidden || r.m.nonconst))
    case _ => Result(Err(E_SWERR), m)
  }

  /** The argument that choose() takes: out of range, the first or the last. */
  function Chosen(n: int, nargs: nat): (i: nat)
    requires nargs >= 2
    ensures 1 <= i < nargs
  {
    if n < 1 then 1 else if n > nargs - 1 then nargs - 1 else n
  }

  function EvalIif(w: World, args: seq<Node>, locals: seq<Value>, m: Machine): (r: Result)
    requires |args| % 2 == 1
    ensures Restored(m, r.m) && RefusedAtLimit(w, r)
    decreases Left(m), args, 0
  {
    if |args| == 1 then Eval(w, args[0], locals, m)
    else
      var r := Eval(w, args[0], locals, m);
      if r.outcome.Err? then r
      else if Truthy(r.outcome.v) then Eval(w, args[1], locals, r.m)
      else EvalIif(w, args[2..], locals, r.m)
  }

  function EvalIsAny(w: World, v: Value, args: seq<Node>, locals: seq<Value>, m: Machine): (r: Result)
    ensures Restored(m, r.m) && RefusedAtLimit(w, r)
    decreases Left(m), args, 0
  {
    if args == [] then Result(Bool(false), m)
    else
      var r := Eval(w, args[0], locals, m);
      if r.outcome.Err? then r
      else if r.outcome.v == v then Result(Bool(true), r.m)
      else EvalIsAny(w, v, args[1..], locals, r.m)
  }
}
