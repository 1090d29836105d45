/**
 The stack of IF entries shared by all files (src/ifelse.c), as a value and as
 the array with its two pointers.
 */
module IfStack {

  const IF_NEST := 64

  datatype Status = OK | E_NESTED_IF | E_ELSE_NO_IF | E_ENDIF_NO_IF

  datatype Entry = Entry(ifTrue: bool, beforeElse: bool, wasConstant: bool)

  predicate Blocks(e: Entry) {
    e.ifTrue != e.beforeElse
  }

  predicate SomeBlocks(s: seq<Entry>) {
    exists i | 0 <= i < |s| :: Blocks(s[i])
  }

  predicate AllConstant(s: seq<Entry>) {
    forall i | 0 <= i < |s| :: s[i].wasConstant
  }

  /** What one file sees: the entries of the files around it only count and are constant or not. */
  datatype FileState = FileState(outer: nat, outerConstant: bool, entries: seq<Entry>, returned: bool)

  predicate Ignoring(s: FileState) {
    s.returned || SomeBlocks(s.entries)
  }

  predicate ConstantContext(s: FileState) {
    s.outerConstant && AllConstant(s.entries)
  }

  function Pushed(s: FileState, isTrue: bool, wasConstant: bool): (FileState, Status) {
    if s.outer + |s.entries| >= IF_NEST then (s, E_NESTED_IF)
    else (s.(entries := s.entries + [Entry(isTrue, true, wasConstant)]), OK)
  }

  function Elsed(s: FileState): (FileState, Status) {
    var n := |s.entries|;
    if n == 0 || !s.entries[n - 1].beforeElse then (s, E_ELSE_NO_IF)
    else (s.(entries := s.entries[n - 1 := s.entries[n - 1].(beforeElse := false)]), OK)
  }

  function Endifed(s: FileState): (FileState, Status) {
    var n := |s.entries|;
    if n == 0 then (s, E_ENDIF_NO_IF) else (s.(entries := s.entries[..n - 1]), OK)
  }

  function Fresh(s: FileState): FileState {
    FileState(s.outer, s.outerConstant, [], false)
  }

  /** A file included by a file in state `s` starts here. */
  function Inner(s: FileState): FileState {
    FileState(s.outer + |s.entries|, ConstantContext(s), [], false)
  }

  class IfTable {
    const ifArray: array<Entry>
    var ifPointer: int
    var basePointer: int
    var returnEncountered: bool

    ghost predicate Valid()
      reads this
    {
      ifArray.Length == IF_NEST && 0 <= basePointer <= ifPointer <= IF_NEST
    }

    /** All entries, those of the files around the current one first. */
    ghost function Entries(): seq<Entry>
      requires Valid()
      reads this, ifArray
    {
      ifArray[..ifPointer]
    }

    ghost function State(): FileState
      requires Valid()
      reads this, ifArray
    {
      FileState(basePointer, AllConstant(Entries()[..basePointer]), Entries()[basePointer..], returnEncountered)
    }

    /** Nothing below the base has changed. */
    twostate predicate SameBelow()
      requires old(Valid()) && Valid()
      reads this, ifArray
    {
      basePointer == old(basePointer) && Entries()[..basePointer] == old(Entries()[..basePointer])
    }

    constructor ()
      ensures Valid() && fresh(ifArray) && State() == FileState(0, true, [], false) && Entries() == []
    {
      ifArray := new Entry[64](_ => Entry(false, false, false));
      ifPointer, basePointer, returnEncountered := 0, 0, false;
    }

    method PushIf(isTrue: bool, wasConstant: bool) returns (r: Status)
      requires Valid()
      modifies this`ifPointer, ifArray
      ensures Valid() && SameBelow() && (State(), r) == Pushed(old(State()), isTrue, wasConstant)
    {
      if ifPointer >= IF_NEST {
        return E_NESTED_IF;
      }
      ghost var was := Entries();
      ifArray[ifPointer] := Entry(isTrue, true, wasConstant);
      ifPointer := ifPointer + 1;
      assert Entries() == was + [Entry(isTrue, true, wasConstant)];
      assert Entries()[..basePointer] == was[..basePointer];
      assert Entries()[basePointer..] == was[basePointer..] + [Entry(isTrue, true, wasConstant)];
      return OK;
    }

    method IfStackFull() returns (r: Status)
      requires Valid()
      ensures r == if State().outer + |State().entries| >= IF_NEST then E_NESTED_IF else OK
    {
      return if ifPointer >= IF_NEST then E_NESTED_IF else OK;
    }

    method EncounterElse() returns (r: Status)
      requires Valid()
      modifies ifArray
      ensures Valid() && SameBelow() && (State(), r) == Elsed(old(State()))
    {
      if ifPointer <= basePointer {
        return E_ELSE_NO_IF;
      }
      ghost var was := Entries();
      if !ifArray[ifPointer - 1].beforeElse {
        assert was[basePointer..][|was| - basePointer - 1] == ifArray[ifPointer - 1];
        return E_ELSE_NO_IF;
      }
      ifArray[ifPointer - 1] := ifArray[ifPointer - 1].(beforeElse := false);
      assert Entries() == was[|was| - 1 := was[|was| - 1].(beforeElse := false)];
      return OK;
    }

    method EncounterEndif() returns (r: Status)
      requires Valid()
      modifies this`ifPointer
      ensures Valid() && SameBelow() && (State(), r) == Endifed(old(State()))
    {
      if ifPointer <= basePointer {
        return E_ENDIF_NO_IF;
      }
      ghost var was := Entries();
      ifPointer := ifPointer - 1;
      assert Entries()[..basePointer] == was[..basePointer];
      assert Entries()[basePointer..] == was[basePointer..][..|was| - basePointer - 1];
      return OK;
    }

    method ShouldIgnoreLine() returns (r: bool)
      requires Valid()
      ensures r == Ignoring(State())
    {
      if returnEncountered {
        return true;
      }
      ghost var entries := State().entries;
      for i := basePointer to ifPointer
        invariant forall k | 0 <= k < i - basePointer :: !Blocks(entries[k])
      {
        assert entries[i - basePointer] == ifArray[i];
        if (ifArray[i].ifTrue && !ifArray[i].beforeElse) || (!ifArray[i].ifTrue && ifArray[i].beforeElse) {
          return true;
        }
      }
      return false;
    }

    method InConstantContext() returns (r: bool)
      requires Valid()
      ensures r == ConstantContext(State())
    {
      ghost var all := Entries();
      for i := 0 to ifPointer
        invariant forall k | 0 <= k < i :: all[k].wasConstant
      {
        if !ifArray[i].wasConstant {
          assert !all[i].wasConstant;
          assert i < basePointer ==> !all[..basePointer][i].wasConstant;
          assert i >= basePointer ==> !all[basePointer..][i - basePointer].wasConstant;
          return false;
        }
      }
      return true;
    }

    method DoReturn()
      requires Valid()
      modifies this`returnEncountered
      ensures Valid() && SameBelow() && State() == old(State()).(returned := true)
    {
      returnEncountered := true;
    }

    /** At the end of a file: forget its open IFs, and that it returned. */
    method PopExcessIfs()
      requires Valid()
      modifies this`ifPointer, this`returnEncountered
      ensures Valid() && SameBelow() && State() == Fresh(old(State()))
    {
      returnEncountered := false;
      if ifPointer <= basePointer {
        return;
      }
      while ifPointer > basePointer
        invariant Valid() && !returnEncountered
        decreases ifPointer
      {
        ifPointer := ifPointer - 1;
      }
    }

    /** set_base_if_pointer(get_if_pointer()), when a file is entered. */
    method EnterFile()
      requires Valid()
      modifies this`basePointer
      ensures Valid() && Entries() == old(Entries()) && basePointer == ifPointer
      ensures State().(returned := false) == Inner(old(State()))
      ensures State().returned == old(State()).returned
    {
      basePointer := ifPointer;
      ghost var b := old(basePointer);
      assert Entries()[..b] + Entries()[b..] == Entries();
      ConstantParts(Entries()[..b], Entries()[b..]);
    }

    /** set_base_if_pointer(n), when a file is left. */
    method LeaveFile(n: nat)
      requires Valid() && n <= basePointer
      modifies this`basePointer
      ensures Valid() && Entries() == old(Entries()) && basePointer == n && returnEncountered == old(returnEncountered)
    {
      basePointer := n;
    }
  }

  lemma ConstantParts(a: seq<Entry>, b: seq<Entry>)
    ensures AllConstant(a + b) <==> AllConstant(a) && AllConstant(b)
  {
    if AllConstant(a + b) {
      assert forall i | 0 <= i < |a| :: a[i] == (a + b)[i];
      assert forall i | 0 <= i < |b| :: b[i] == (a + b)[|a| + i];
    }
  }
}

/**
 Reading lines with IF, ELSE, ENDIF, IFTRIG, RETURN and INCLUDE (src/main.c,
 src/files.c): the flat machine, and a structured interpreter for programs whose
 IFs are well nested.

 What happened so far decides every condition and what a file holds, so the
 theorems say that both meet the same lines in the same order.
 */
module Lines {
  import opened IfStack

  const INCLUDE_NEST := 9

  /** The commands, by what they do to the flow of lines; numbers tell lines apart. */
  datatype Line =
    | Plain(id: nat)
    | Set(id: nat)                 // SET and FSET are looked at even where lines are ignored
    | If(id: nat)
    | IfTrig(id: nat)
    | Else
    | Endif
    | Return
    | Include(id: nat)

  datatype Event =
    | Ran(id: nat)
    | SetSeen(id: nat, ignoring: bool, constantContext: bool)
    | Tested(id: nat)
    | TestedTrig(id: nat)
    | Included(id: nat)
    | Failed(status: Status)
    | BadIfTrig(id: nat)
    | TooDeep(id: nat)

  type History = seq<Event>

  datatype Outcome = Known(truth: bool, constant: bool) | Erroneous

  datatype TrigOutcome = Unparsable | Triggers | DoesNotTrigger

  /** The files of an INCLUDE that can be opened; several for a directory, none if nothing can. */
  type Chain = seq<seq<Line>>

  datatype Env = Env(cond: (History, nat) -> Outcome, trig: (History, nat) -> TrigOutcome,
                     target: (History, nat) -> Chain)

  // ----- The flat machine -----

  function Note(h: History, r: Status): History {
    if r == OK then h else h + [Failed(r)]
  }

  function IfStep(env: Env, s: FileState, h: History, id: nat): (FileState, History) {
    if s.outer + |s.entries| >= IF_NEST then (s, h + [Failed(E_NESTED_IF)])
    else if Ignoring(s) then (Pushed(s, true, true).0, h)
    else
      match env.cond(h, id)
      case Erroneous => (Pushed(s, true, false).0, h + [Tested(id)])
      case Known(truth, constant) => (Pushed(s, truth, constant).0, h + [Tested(id)])
  }

  function IfTrigStep(env: Env, s: FileState, h: History, id: nat): (FileState, History) {
    if s.outer + |s.entries| >= IF_NEST then (s, h + [Failed(E_NESTED_IF)])
    else if Ignoring(s) then (Pushed(s, true, false).0, h)
    else
      match env.trig(h, id)
      case Unparsable => (s, h + [BadIfTrig(id)])
      case Triggers => (Pushed(s, true, false).0, h + [TestedTrig(id)])
      case DoesNotTrigger => (Pushed(s, false, false).0, h + [TestedTrig(id)])
  }

  /** One line that is not an INCLUDE. */
  function LineStep(env: Env, s: FileState, h: History, line: Line): (FileState, History)
    requires !line.Include?
  {
    match line
    case If(id) => IfStep(env, s, h, id)
    case IfTrig(id) => IfTrigStep(env, s, h, id)
    case Else => var (s', r) := Elsed(s); (s', Note(h, r))
    case Endif => var (s', r) := Endifed(s); (s', Note(h, r))
    case Set(id) => (s, h + [SetSeen(id, Ignoring(s), ConstantContext(s))])
    case Plain(id) => if Ignoring(s) then (s, h) else (s, h + [Ran(id)])
    case Return => if Ignoring(s) then (s, h) else (s.(returned := true), h)
  }

  /** The lines of one file; `depth` files are open. */
  function RunLines(env: Env, s: FileState, h: History, lines: seq<Line>, depth: nat): (FileState, History)
    requires depth <= INCLUDE_NEST
    decreases INCLUDE_NEST - depth, 0, |lines|
  {
    if lines == [] then (s, h)
    else if !lines[0].Include? then
      var (s', h') := LineStep(env, s, h, lines[0]);
      RunLines(env, s', h', lines[1..], depth)
    else if Ignoring(s) then RunLines(env, s, h, lines[1..], depth)
    else if depth == INCLUDE_NEST then RunLines(env, s, h + [TooDeep(lines[0].id)], lines[1..], depth)
    else
      var h' := h + [Included(lines[0].id)];
      RunLines(env, s, RunChain(env, Inner(s), h', env.target(h, lines[0].id), depth + 1), lines[1..], depth)
  }

  /** The files of a chain one after the other, each with a clean slate. */
  function RunChain(env: Env, s: FileState, h: History, chain: Chain, depth: nat): History
    requires depth <= INCLUDE_NEST
    decreases INCLUDE_NEST - depth, 1, |chain|
  {
    if chain == [] then h
    else RunChain(env, Fresh(s), RunLines(env, s, h, chain[0], depth).1, chain[1..], depth)
  }

  lemma {:induction false} RunConcat(env: Env, s: FileState, h: History, a: seq<Line>, b: seq<Line>, depth: nat)
    requires depth <= INCLUDE_NEST
    ensures RunLines(env, s, h, a + b, depth)
            == var (s', h') := RunLines(env, s, h, a, depth); RunLines(env, s', h', b, depth)
    decreases |a|
  {
    hide LineStep, RunChain;
    if a == [] {
      assert a + b == b;
    } else {
      assert (a + b)[1..] == a[1..] + b && (a + b)[0] == a[0];
      if !a[0].Include? {
        var (s', h') := LineStep(env, s, h, a[0]);
        RunConcat(env, s', h', a[1..], b, depth);
      } else if Ignoring(s) {
        RunConcat(env, s, h, a[1..], b, depth);
      } else if depth == INCLUDE_NEST {
        RunConcat(env, s, h + [TooDeep(a[0].id)], a[1..], b, depth);
      } else {
        var h' := RunChain(env, Inner(s), h + [Included(a[0].id)], env.target(h, a[0].id), depth + 1);
        RunConcat(env, s, h', a[1..], b, depth);
      }
    }
  }

  // ----- The structured interpreter -----

  datatype Stmt =
    | Simple(line: Line)
    | Cond(id: nat, trig: bool, thn: seq<Stmt>, hasElse: bool, els: seq<Stmt>)

  ghost predicate Proper(b: seq<Stmt>) {
    forall i | 0 <= i < |b| ::
      match b[i]
      case Simple(line) => !line.If? && !line.IfTrig? && !line.Else? && !line.Endif?
      case Cond(_, _, thn, hasElse, els) => Proper(thn) && Proper(els) && (!hasElse ==> els == [])
  }

  /** How deeply the IFs of the program are nested. */
  function Nesting(b: seq<Stmt>): nat {
    if b == [] then 0 else Larger(StmtNesting(b[0]), Nesting(b[1..]))
  }

  function StmtNesting(x: Stmt): nat {
    match x
    case Simple(_) => 0
    case Cond(_, _, thn, _, els) => 1 + Larger(Nesting(thn), Nesting(els))
  }

  function Larger(a: nat, b: nat): nat {
    if a < b then b else a
  }

  function Text(b: seq<Stmt>): seq<Line> {
    if b == [] then [] else StmtText(b[0]) + Text(b[1..])
  }

  function StmtText(x: Stmt): seq<Line> {
    match x
    case Simple(line) => [line]
    case Cond(id, trig, thn, hasElse, els) =>
      [if trig then IfTrig(id) else If(id)] + Text(thn) + (if hasElse then [Else] else []) + Text(els) + [Endif]
  }

  /** Where a block stands: how many IFs are around it, whether all were constant, whether it is live. */
  datatype Place = Place(nesting: nat, constant: bool, live: bool)

  /** What a block leaves: the history, whether a RETURN was met, whether every IFTRIG could be parsed. */
  datatype Left = Left(h: History, returned: bool, clean: bool)

  function Exec(env: Env, p: Place, h: History, returned: bool, b: seq<Stmt>, depth: nat): Left
    requires Proper(b) && depth <= INCLUDE_NEST
    decreases b
  {
    if b == [] then Left(h, returned, true)
    else
      assert b[0] in b;
      var l := ExecStmt(env, p, h, returned, b[0], depth);
      var l' := Exec(env, p, l.h, l.returned, b[1..], depth);
      l'.(clean := l.clean && l'.clean)
  }

  function ExecStmt(env: Env, p: Place, h: History, returned: bool, x: Stmt, depth: nat): Left
    requires Proper([x]) && depth <= INCLUDE_NEST
    decreases x
  {
    match x
    case Simple(line) => ExecSimple(env, p, h, returned, line, depth)
    case Cond(id, trig, thn, _, els) =>
      assert [x][0] == x;
      // where lines are ignored nothing is tested, and neither block becomes live
      var on := p.live && !returned;
      var (truth, constant) := if on then Verdict(env, h, id, trig) else (true, !trig);
      var h' := if on then h + [if trig then TestedTrig(id) else Tested(id)] else h;
      var l := Exec(env, Place(p.nesting + 1, p.constant && constant, p.live && truth), h', returned, thn, depth);
      var l' := Exec(env, Place(p.nesting + 1, p.constant && constant, p.live && !truth), l.h, l.returned, els, depth);
      l'.(clean := l.clean && l'.clean && (on && trig ==> env.trig(h, id) != Unparsable))
  }

  /** An erroneous condition counts as true; only IF conditions can be constant. */
  function Verdict(env: Env, h: History, id: nat, trig: bool): (bool, bool) {
    if trig then (env.trig(h, id) == Triggers, false)
    else match env.cond(h, id)
      case Erroneous => (true, false)
      case Known(truth, constant) => (truth, constant)
  }

  function ExecSimple(env: Env, p: Place, h: History, returned: bool, line: Line, depth: nat): Left
    requires !line.If? && !line.IfTrig? && !line.Else? && !line.Endif? && depth <= INCLUDE_NEST
  {
    var on := p.live && !returned;
    match line
    case Set(id) => Left(h + [SetSeen(id, !on, p.constant)], returned, true)
    case Plain(id) => Left(if on then h + [Ran(id)] else h, returned, true)
    case Return => Left(h, returned || on, true)
    case Include(id) =>
      if !on then Left(h, returned, true)
      else if depth == INCLUDE_NEST then Left(h + [TooDeep(id)], returned, true)
      else Left(RunChain(env, FileState(p.nesting, p.constant, [], false), h + [Included(id)], env.target(h, id),
          depth + 1),
                returned, true)
  }

  function PlaceOf(s: FileState): Place {
    Place(s.outer + |s.entries|, ConstantContext(s), !SomeBlocks(s.entries))
  }

  /**
   The flat machine meets exactly the lines the structured interpreter does, for
   every well-nested program of depth at most 64 all of whose IFTRIGs can be parsed
   when they are reached.
   */
  lemma {:induction false} FlatIsStructured(env: Env, s: FileState, h: History, b: seq<Stmt>, depth: nat)
    requires Proper(b) && depth <= INCLUDE_NEST && s.outer + |s.entries| + Nesting(b) <= IF_NEST
    requires Exec(env, PlaceOf(s), h, s.returned, b, depth).clean
    ensures var l := Exec(env, PlaceOf(s), h, s.returned, b, depth);
            RunLines(env, s, h, Text(b), depth) == (s.(returned := l.returned), l.h)
    decreases b
  {
    if b != [] {
      assert b[0] in b;
      var l := ExecStmt(env, PlaceOf(s), h, s.returned, b[0], depth);
      StmtIsStructured(env, s, h, b[0], depth);
      var s' := s.(returned := l.returned);
      assert PlaceOf(s') == PlaceOf(s);
      FlatIsStructured(env, s', l.h, b[1..], depth);
      RunConcat(env, s, h, StmtText(b[0]), Text(b[1..]), depth);
    }
  }

  lemma {:induction false} StmtIsStructured(env: Env, s: FileState, h: History, x: Stmt, depth: nat)
    requires Proper([x]) && depth <= INCLUDE_NEST && s.outer + |s.entries| + StmtNesting(x) <= IF_NEST
    requires ExecStmt(env, PlaceOf(s), h, s.returned, x, depth).clean
    ensures var l := ExecStmt(env, PlaceOf(s), h, s.returned, x, depth);
            RunLines(env, s, h, StmtText(x), depth) == (s.(returned := l.returned), l.h)
    decreases x, 1
  {
    hide RunLines, Text, Exec, ExecSimple, Nesting, LineStep, Verdict, SomeBlocks, ConstantContext;
    assert [x][0] == x;
    match x
    case Simple(line) => SimpleIsStructured(env, s, h, line, depth);
    case Cond(id, trig, thn, hasElse, els) =>
      var on := !SomeBlocks(s.entries) && !s.returned;
      var (truth, constant) := if on then Verdict(env, h, id, trig) else (true, !trig);
      var h1 := if on then h + [if trig then TestedTrig(id) else Tested(id)] else h;
      CondIsStructured(env, s, h1, truth, constant, x, depth);
      var first := if trig then IfTrig(id) else If(id);
      assert StmtText(x) == [first] + Inside(x);
      RunConcat(env, s, h, [first], Inside(x), depth);
      RunOne(env, s, h, first, depth);
      FirstLine(env, s, h, id, trig);
  }

  lemma FirstLine(env: Env, s: FileState, h: History, id: nat, trig: bool)
    requires s.outer + |s.entries| < IF_NEST
    requires trig && !Ignoring(s) ==> env.trig(h, id) != Unparsable
    ensures var (truth, constant) := if Ignoring(s) then (true, !trig) else Verdict(env, h, id, trig);
            LineStep(env, s, h, if trig then IfTrig(id) else If(id))
            == (Opened(s, truth, constant),
                if Ignoring(s) then h else h + [if trig then TestedTrig(id) else Tested(id)])
  {
  }

  /** In the first block of a conditional. */
  function Opened(s: FileState, truth: bool, constant: bool): FileState {
    s.(entries := s.entries + [Entry(truth, true, constant)])
  }

  /** The text of a conditional after its first line. */
  function Inside(x: Stmt): seq<Line>
    requires x.Cond?
  {
    Text(x.thn) + ((if x.hasElse then [Else] else []) + (Text(x.els) + [Endif]))
  }

  lemma RunOne(env: Env, s: FileState, h: History, line: Line, depth: nat)
    requires depth <= INCLUDE_NEST && !line.Include?
    ensures RunLines(env, s, h, [line], depth) == LineStep(env, s, h, line)
  {
  }

  lemma SimpleIsStructured(env: Env, s: FileState, h: History, line: Line, depth: nat)
    requires !line.If? && !line.IfTrig? && !line.Else? && !line.Endif? && depth <= INCLUDE_NEST
    ensures var l := ExecSimple(env, PlaceOf(s), h, s.returned, line, depth);
            RunLines(env, s, h, [line], depth) == (s.(returned := l.returned), l.h)
  {
  }

  ghost function ExecThen(env: Env, s: FileState, h: History, truth: bool, constant: bool, x: Stmt, depth: nat): Left
    requires Proper([x]) && x.Cond? && depth <= INCLUDE_NEST
  {
    assert [x][0] == x;
    var p := PlaceOf(s);
    Exec(env, Place(p.nesting + 1, p.constant && constant, p.live && truth), h, s.returned, x.thn, depth)
  }

  ghost function ExecElse(env: Env, s: FileState, l: Left, truth: bool, constant: bool, x: Stmt, depth: nat): Left
    requires Proper([x]) && x.Cond? && depth <= INCLUDE_NEST
  {
    assert [x][0] == x;
    var p := PlaceOf(s);
    Exec(env, Place(p.nesting + 1, p.constant && constant, p.live && !truth), l.h, l.returned, x.els, depth)
  }

  lemma {:induction false} CondIsStructured(env: Env, s: FileState, h: History, truth: bool, constant: bool, x: Stmt,
                                            depth: nat)
    requires Proper([x]) && x.Cond? && depth <= INCLUDE_NEST && s.outer + |s.entries| + StmtNesting(x) <= IF_NEST
    requires var l := ExecThen(env, s, h, truth, constant, x, depth);
             l.clean && ExecElse(env, s, l, truth, constant, x, depth).clean
    ensures var l := ExecThen(env, s, h, truth, constant, x, depth);
            var l' := ExecElse(env, s, l, truth, constant, x, depth);
            RunLines(env, Opened(s, truth, constant), h, Inside(x), depth) == (s.(returned := l'.returned), l'.h)
    decreases x, 0
  {
    hide RunLines, Exec, Text, PlaceOf, Nesting, LineStep;
    assert [x][0] == x;
    var e := Entry(truth, !x.hasElse, constant);
    var s1 := Opened(s, truth, constant);
    PlaceWithin(s, Entry(truth, true, constant), s.returned);
    FlatIsStructured(env, s1, h, x.thn, depth);
    var l := ExecThen(env, s, h, truth, constant, x, depth);
    var l' := ExecElse(env, s, l, truth, constant, x, depth);
    var s3 := s1.(entries := s.entries + [e], returned := l.returned);
    PlaceWithin(s, e, l.returned);
    if x.hasElse {
      FlatIsStructured(env, s3, l.h, x.els, depth);
    } else {
      RunNone(env, s3, l.h, depth);
      EmptyBlock(env, Place(PlaceOf(s).nesting + 1, PlaceOf(s).constant && constant, PlaceOf(s).live && !truth), l.h,
          l.returned, depth);
    }
    Assembled(env, s1, s.entries, h, x, l, l', depth);
  }

  /** From the runs of both blocks, the run of all that follows the first line. */
  lemma Assembled(env: Env, s: FileState, outer: seq<Entry>, h: History, x: Stmt, l: Left, l': Left, depth: nat)
    requires x.Cond? && depth <= INCLUDE_NEST && |s.entries| == |outer| + 1 && s.entries == outer + [s.entries[|outer|]]
    requires s.entries[|outer|].beforeElse
    requires RunLines(env, s, h, Text(x.thn), depth) == (s.(returned := l.returned), l.h)
    requires var s3 := s.(entries := outer + [s.entries[|outer|].(beforeElse := !x.hasElse)], returned := l.returned);
             RunLines(env, s3, l.h, Text(x.els), depth) == (s3.(returned := l'.returned), l'.h)
    ensures RunLines(env, s, h, Inside(x), depth) == (s.(entries := outer, returned := l'.returned), l'.h)
  {
    hide RunLines, Text, LineStep;
    var mid, e := if x.hasElse then [Else] else [], s.entries[|outer|];
    var e' := e.(beforeElse := !x.hasElse);
    var s2 := s.(returned := l.returned);
    var s3 := s2.(entries := outer + [e']);
    RunConcat(env, s, h, Text(x.thn), mid + (Text(x.els) + [Endif]), depth);
    PastElse(env, s2, outer, e, l.h, x.hasElse, depth);
    RunConcat(env, s2, l.h, mid, Text(x.els) + [Endif], depth);
    RunConcat(env, s3, l.h, Text(x.els), [Endif], depth);
    PastEndif(env, s3.(returned := l'.returned), outer, e', l'.h, depth);
  }

  lemma RunNone(env: Env, s: FileState, h: History, depth: nat)
    requires depth <= INCLUDE_NEST
    ensures RunLines(env, s, h, [], depth) == (s, h)
  {
  }

  lemma PastEndif(env: Env, s: FileState, outer: seq<Entry>, e: Entry, h: History, depth: nat)
    requires depth <= INCLUDE_NEST && s.entries == outer + [e]
    ensures RunLines(env, s, h, [Endif], depth) == (s.(entries := outer), h)
  {
    RunOne(env, s, h, Endif, depth);
    assert s.entries[..|outer|] == outer;
  }

  lemma EmptyBlock(env: Env, p: Place, h: History, returned: bool, depth: nat)
    requires depth <= INCLUDE_NEST
    ensures Text([]) == [] && Exec(env, p, h, returned, [], depth) == Left(h, returned, true)
  {
  }

  lemma PlaceWithin(s: FileState, e: Entry, returned: bool)
    ensures var p := PlaceOf(s);
            PlaceOf(s.(entries := s.entries + [e], returned := returned))
            == Place(p.nesting + 1, p.constant && e.wasConstant, p.live && !Blocks(e))
  {
    ConstantParts(s.entries, [e]);
    var all := s.entries + [e];
    assert all[|s.entries|] == e;
    assert forall i | 0 <= i < |s.entries| :: all[i] == s.entries[i];
  }

  lemma PastElse(env: Env, s: FileState, outer: seq<Entry>, e: Entry, h: History, hasElse: bool, depth: nat)
    requires depth <= INCLUDE_NEST && s.entries == outer + [e] && e.beforeElse
    ensures RunLines(env, s, h, if hasElse then [Else] else [], depth)
            == (s.(entries := outer + [e.(beforeElse := !hasElse)]), h)
  {
    if hasElse {
      RunOne(env, s, h, Else, depth);
      assert s.entries[|outer| := e.(beforeElse := false)] == outer + [e.(beforeElse := false)];
    } else {
      RunNone(env, s, h, depth);
    }
  }

  // ----- An IFTRIG that cannot be parsed -----

  lemma {:induction false} RunGrows(env: Env, s: FileState, h: History, lines: seq<Line>, depth: nat)
    requires depth <= INCLUDE_NEST
    ensures h <= RunLines(env, s, h, lines, depth).1
    decreases INCLUDE_NEST - depth, 0, |lines|
  {
    hide LineStep, Ignoring, Inner;
    if lines == [] {
    } else if !lines[0].Include? {
      var (s', h') := LineStep(env, s, h, lines[0]);
      StepGrows(env, s, h, lines[0]);
      RunGrows(env, s', h', lines[1..], depth);
    } else if Ignoring(s) {
      RunGrows(env, s, h, lines[1..], depth);
    } else if depth == INCLUDE_NEST {
      RunGrows(env, s, h + [TooDeep(lines[0].id)], lines[1..], depth);
    } else {
      var h' := h + [Included(lines[0].id)];
      var h'' := RunChain(env, Inner(s), h', env.target(h, lines[0].id), depth + 1);
      ChainGrows(env, Inner(s), h', env.target(h, lines[0].id), depth + 1);
      RunGrows(env, s, h'', lines[1..], depth);
    }
  }

  lemma StepGrows(env: Env, s: FileState, h: History, line: Line)
    requires !line.Include?
    ensures h <= LineStep(env, s, h, line).1
  {
  }

  lemma {:induction false} ChainGrows(env: Env, s: FileState, h: History, chain: Chain, depth: nat)
    requires depth <= INCLUDE_NEST
    ensures h <= RunChain(env, s, h, chain, depth)
    decreases INCLUDE_NEST - depth, 1, |chain|
  {
    if chain != [] {
      RunGrows(env, s, h, chain[0], depth);
      ChainGrows(env, Fresh(s), RunLines(env, s, h, chain[0], depth).1, chain[1..], depth);
    }
  }

  lemma {:induction false} ExecGrows(env: Env, p: Place, h: History, returned: bool, b: seq<Stmt>, depth: nat)
    requires Proper(b) && depth <= INCLUDE_NEST
    ensures h <= Exec(env, p, h, returned, b, depth).h
    decreases b
  {
    if b != [] {
      assert b[0] in b;
      var l := ExecStmt(env, p, h, returned, b[0], depth);
      ExecStmtGrows(env, p, h, returned, b[0], depth);
      ExecGrows(env, p, l.h, l.returned, b[1..], depth);
    }
  }

  lemma {:induction false} ExecStmtGrows(env: Env, p: Place, h: History, returned: bool, x: Stmt, depth: nat)
    requires Proper([x]) && depth <= INCLUDE_NEST
    ensures h <= ExecStmt(env, p, h, returned, x, depth).h
    decreases x
  {
    hide Exec;
    match x
    case Simple(line) =>
      if line.Include? && depth < INCLUDE_NEST {
        ChainGrows(env, FileState(p.nesting, p.constant, [], false), h + [Included(line.id)], env.target(h, line.id),
            depth + 1);
      }
    case Cond(id, trig, thn, _, els) =>
      assert [x][0] == x;
      var on := p.live && !returned;
      var (truth, constant) := if on then Verdict(env, h, id, trig) else (true, !trig);
      var h' := if on then h + [if trig then TestedTrig(id) else Tested(id)] else h;
      var p' := Place(p.nesting + 1, p.constant && constant, p.live && truth);
      var l := Exec(env, p', h', returned, thn, depth);
      ExecGrows(env, p', h', returned, thn, depth);
      ExecGrows(env, p'.(live := p.live && !truth), l.h, l.returned, els, depth);
  }

  ghost predicate Differ(a: History, b: History) {
    exists k | 0 <= k < |a| && k < |b| :: a[k] != b[k]
  }

  lemma StillDiffer(a: History, a': History, b: History, b': History)
    requires Differ(a, b) && a <= a' && b <= b'
    ensures Differ(a', b')
  {
    var k :| 0 <= k < |a| && k < |b| && a[k] != b[k];
    assert a'[k] == a[k] && b'[k] == b[k];
  }

  /** Once an IFTRIG that cannot be parsed is reached, the machine and the interpreter part. */
  lemma {:induction false} UncleanDiffers(env: Env, s: FileState, h: History, b: seq<Stmt>, depth: nat)
    requires Proper(b) && depth <= INCLUDE_NEST && s.outer + |s.entries| + Nesting(b) <= IF_NEST
    requires !Exec(env, PlaceOf(s), h, s.returned, b, depth).clean
    ensures Differ(RunLines(env, s, h, Text(b), depth).1, Exec(env, PlaceOf(s), h, s.returned, b, depth).h)
    decreases b
  {
    hide RunLines, PlaceOf, StmtText, ExecStmt;
    assert b[0] in b;
    var l := ExecStmt(env, PlaceOf(s), h, s.returned, b[0], depth);
    RunConcat(env, s, h, StmtText(b[0]), Text(b[1..]), depth);
    var (s', h') := RunLines(env, s, h, StmtText(b[0]), depth);
    if !l.clean {
      UncleanStmt(env, s, h, b[0], depth);
      RunGrows(env, s', h', Text(b[1..]), depth);
      ExecGrows(env, PlaceOf(s), l.h, l.returned, b[1..], depth);
      StillDiffer(h', RunLines(env, s', h', Text(b[1..]), depth).1, l.h,
          Exec(env, PlaceOf(s), l.h, l.returned, b[1..], depth).h);
    } else {
      StmtIsStructured(env, s, h, b[0], depth);
      SamePlace(s, l.returned);
      UncleanDiffers(env, s', h', b[1..], depth);
    }
  }

  lemma SamePlace(s: FileState, returned: bool)
    ensures PlaceOf(s.(returned := returned)) == PlaceOf(s)
  {
  }

  lemma {:induction false} UncleanStmt(env: Env, s: FileState, h: History, x: Stmt, depth: nat)
    requires Proper([x]) && depth <= INCLUDE_NEST && s.outer + |s.entries| + StmtNesting(x) <= IF_NEST
    requires !ExecStmt(env, PlaceOf(s), h, s.returned, x, depth).clean
    ensures Differ(RunLines(env, s, h, StmtText(x), depth).1, ExecStmt(env, PlaceOf(s), h, s.returned, x, depth).h)
    decreases x, 1
  {
    hide RunLines, Text, Exec, Nesting, LineStep, SomeBlocks, ConstantContext;
    assert [x][0] == x;
    var id, trig := x.id, x.trig;
    var on := !SomeBlocks(s.entries) && !s.returned;
    var (truth, constant) := if on then Verdict(env, h, id, trig) else (true, !trig);
    var h1 := if on then h + [if trig then TestedTrig(id) else Tested(id)] else h;
    var first := if trig then IfTrig(id) else If(id);
    assert StmtText(x) == [first] + Inside(x);
    RunConcat(env, s, h, [first], Inside(x), depth);
    RunOne(env, s, h, first, depth);
    if on && trig && env.trig(h, id) == Unparsable {
      Parting(env, s, h, x, depth);
    } else {
      FirstLine(env, s, h, id, trig);
      UncleanBlocks(env, s, h1, truth, constant, x, depth);
    }
  }

  lemma Parting(env: Env, s: FileState, h: History, x: Stmt, depth: nat)
    requires Proper([x]) && depth <= INCLUDE_NEST && x.Cond? && x.trig
    requires s.outer + |s.entries| < IF_NEST && !Ignoring(s) && env.trig(h, x.id) == Unparsable
    ensures var (s', h') := LineStep(env, s, h, IfTrig(x.id));
            Differ(RunLines(env, s', h', Inside(x), depth).1, ExecStmt(env, PlaceOf(s), h, s.returned, x, depth).h)
  {
    hide RunLines, Exec, Text;
    assert [x][0] == x;
    var (s', h') := LineStep(env, s, h, IfTrig(x.id));
    RunGrows(env, s', h', Inside(x), depth);
    var p, h1 := PlaceOf(s), h + [TestedTrig(x.id)];
    var p' := Place(p.nesting + 1, false, false);
    var l := Exec(env, p', h1, s.returned, x.thn, depth);
    ExecGrows(env, p', h1, s.returned, x.thn, depth);
    ExecGrows(env, p'.(live := p.live), l.h, l.returned, x.els, depth);
    assert h'[|h|] != h1[|h|];
    StillDiffer(h', RunLines(env, s', h', Inside(x), depth).1, h1, ExecStmt(env, p, h, s.returned, x, depth).h);
  }

  lemma {:induction false} UncleanBlocks(env: Env, s: FileState, h: History, truth: bool, constant: bool, x: Stmt,
                                         depth: nat)
    requires Proper([x]) && x.Cond? && depth <= INCLUDE_NEST && s.outer + |s.entries| + StmtNesting(x) <= IF_NEST
    requires var l := ExecThen(env, s, h, truth, constant, x, depth);
             !(l.clean && ExecElse(env, s, l, truth, constant, x, depth).clean)
    ensures var l := ExecThen(env, s, h, truth, constant, x, depth);
            var l' := ExecElse(env, s, l, truth, constant, x, depth);
            Differ(RunLines(env, Opened(s, truth, constant), h, Inside(x), depth).1, l'.h)
    decreases x, 0
  {
    hide RunLines, Exec, Text, PlaceOf, Nesting, LineStep;
    assert [x][0] == x;
    var s1 := Opened(s, truth, constant);
    var e := Entry(truth, !x.hasElse, constant);
    var l := ExecThen(env, s, h, truth, constant, x, depth);
    var l' := ExecElse(env, s, l, truth, constant, x, depth);
    var p := PlaceOf(s);
    PlaceWithin(s, Entry(truth, true, constant), s.returned);
    var mid, last := if x.hasElse then [Else] else [], [Endif];
    RunConcat(env, s1, h, Text(x.thn), mid + (Text(x.els) + last), depth);
    if !l.clean {
      UncleanDiffers(env, s1, h, x.thn, depth);
      var (s2, h2) := RunLines(env, s1, h, Text(x.thn), depth);
      RunGrows(env, s2, h2, mid + (Text(x.els) + last), depth);
      ExecGrows(env, Place(p.nesting + 1, p.constant && constant, p.live && !truth), l.h, l.returned, x.els, depth);
      StillDiffer(h2, RunLines(env, s2, h2, mid + (Text(x.els) + last), depth).1, l.h, l'.h);
    } else {
      EmptyBlock(env, Place(p.nesting + 1, p.constant && constant, p.live && !truth), l.h, l.returned, depth);
      FlatIsStructured(env, s1, h, x.thn, depth);
      var s2 := s1.(returned := l.returned);
      PastElse(env, s2, s.entries, Entry(truth, true, constant), l.h, x.hasElse, depth);
      RunConcat(env, s2, l.h, mid, Text(x.els) + last, depth);
      var s3 := s2.(entries := s.entries + [e]);
      PlaceWithin(s, e, l.returned);
      UncleanDiffers(env, s3, l.h, x.els, depth);
      RunConcat(env, s3, l.h, Text(x.els), last, depth);
      var (s4, h4) := RunLines(env, s3, l.h, Text(x.els), depth);
      RunGrows(env, s4, h4, last, depth);
      StillDiffer(h4, RunLines(env, s4, h4, last, depth).1, l'.h, l'.h);
    }
  }

  /** So the flat machine is the structured interpreter exactly if no IFTRIG it reaches is unparsable. */
  lemma FlatIsStructuredIff(env: Env, s: FileState, h: History, b: seq<Stmt>, depth: nat)
    requires Proper(b) && depth <= INCLUDE_NEST && s.outer + |s.entries| + Nesting(b) <= IF_NEST
    ensures var l := Exec(env, PlaceOf(s), h, s.returned, b, depth);
            RunLines(env, s, h, Text(b), depth) == (s.(returned := l.returned), l.h) <==> l.clean
  {
    hide RunLines, Exec;
    if Exec(env, PlaceOf(s), h, s.returned, b, depth).clean {
      FlatIsStructured(env, s, h, b, depth);
    } else {
      UncleanDiffers(env, s, h, b, depth);
    }
  }

  /** What goes wrong: the block of an unparsable IFTRIG runs, and its ENDIF closes nothing. */
  lemma UnparsableIfTrig(env: Env, s: FileState, h: History, depth: nat)
    requires depth <= INCLUDE_NEST && s.outer < IF_NEST && s.entries == [] && !s.returned
    requires env.trig(h, 0) == Unparsable
    ensures RunLines(env, s, h, Text([Cond(0, true, [Simple(Plain(1))], false, [])]), depth)
            == (s, h + [BadIfTrig(0)] + [Ran(1)] + [Failed(E_ENDIF_NO_IF)])
  {
    assert Text([Simple(Plain(1))]) == [Plain(1)];
    assert Text([Cond(0, true, [Simple(Plain(1))], false, [])]) == [IfTrig(0)] + ([Plain(1)] + [Endif]);
    RunConcat(env, s, h, [IfTrig(0)], [Plain(1)] + [Endif], depth);
    RunOne(env, s, h, IfTrig(0), depth);
    RunConcat(env, s, h + [BadIfTrig(0)], [Plain(1)], [Endif], depth);
    RunOne(env, s, h + [BadIfTrig(0)], Plain(1), depth);
    RunOne(env, s, h + [BadIfTrig(0)] + [Ran(1)], Endif, depth);
  }
}

/**
 The include stack (src/files.c): what the interpreter of a file relies on when
 another file is included, and when that file ends in whatever state.
 */
module Files {
  import opened IfStack
  import opened Lines

  /** What is saved of a file while the files it includes are read; `chain` is still to be read of a directory. */
  datatype IncludeStruct = IncludeStruct(baseIfPointer: nat, cLine: seq<Line>, chain: Chain)

  /** The same, with the IF entries of the file instead of a pointer to them. */
  datatype Frame = Frame(state: FileState, lines: seq<Line>, chain: Chain)

  // ----- What is left to do -----

  /** The history after all that is left of the current file, of its chain, and of the files around it. */
  ghost function Finish(env: Env, s: FileState, lines: seq<Line>, frames: seq<Frame>, h: History): History
    requires |frames| <= INCLUDE_NEST
    decreases |frames|, if frames == [] then 0 else |frames[|frames| - 1].chain|
  {
    var (s', h') := RunLines(env, s, h, lines, |frames|);
    if frames == [] then h'
    else
      var outer, f := frames[..|frames| - 1], frames[|frames| - 1];
      if f.chain != [] then Finish(env, Fresh(s'), f.chain[0], outer + [f.(chain := f.chain[1..])], h')
      else if |frames| == 1 then h'
      else Finish(env, f.state, f.lines, outer, h')
  }

  lemma FinishStep(env: Env, s: FileState, lines: seq<Line>, frames: seq<Frame>, h: History)
    requires |frames| <= INCLUDE_NEST && lines != []
    ensures !lines[0].Include? ==>
              var (s', h') := LineStep(env, s, h, lines[0]);
              Finish(env, s, lines, frames, h) == Finish(env, s', lines[1..], frames, h')
    ensures lines[0].Include? && Ignoring(s) ==>
            Finish(env, s, lines, frames, h) == Finish(env, s, lines[1..], frames, h)
    ensures lines[0].Include? && !Ignoring(s) && |frames| == INCLUDE_NEST ==>
              Finish(env, s, lines, frames, h) == Finish(env, s, lines[1..], frames, h + [TooDeep(lines[0].id)])
  {
    hide LineStep, Ignoring;
  }

  /** Running the files of a chain, then going on with the file that included them. */
  lemma {:induction false} FinishChain(env: Env, s: FileState, f: Frame, frames: seq<Frame>, h: History)
    requires 0 < |frames| < INCLUDE_NEST && f.chain != []
    ensures Finish(env, s, f.chain[0], frames + [f.(chain := f.chain[1..])], h)
            == Finish(env, f.state, f.lines, frames, RunChain(env, s, h, f.chain, |frames| + 1))
    decreases |f.chain|
  {
    hide RunLines;
    var rest := f.(chain := f.chain[1..]);
    var all := frames + [rest];
    assert all[|all| - 1] == rest && all[..|all| - 1] == frames;
    var (s', h') := RunLines(env, s, h, f.chain[0], |all|);
    assert RunChain(env, s, h, f.chain, |all|) == RunChain(env, Fresh(s), h', rest.chain, |all|);
    RunKeepsOuter(env, s, h, f.chain[0], |all|);
    if rest.chain != [] {
      FinishChain(env, Fresh(s'), rest, frames, h');
    }
  }

  lemma {:induction false} RunKeepsOuter(env: Env, s: FileState, h: History, lines: seq<Line>, depth: nat)
    requires depth <= INCLUDE_NEST
    ensures Fresh(RunLines(env, s, h, lines, depth).0) == Fresh(s)
    decreases |lines|
  {
    hide RunChain;
    if lines == [] {
    } else if !lines[0].Include? {
      var (s', h') := LineStep(env, s, h, lines[0]);
      RunKeepsOuter(env, s', h', lines[1..], depth);
    } else if Ignoring(s) {
      RunKeepsOuter(env, s, h, lines[1..], depth);
    } else if depth == INCLUDE_NEST {
      RunKeepsOuter(env, s, h + [TooDeep(lines[0].id)], lines[1..], depth);
    } else {
      var h' := RunChain(env, Inner(s), h + [Included(lines[0].id)], env.target(h, lines[0].id), depth + 1);
      RunKeepsOuter(env, s, h', lines[1..], depth);
    }
  }

  // ----- Frames of the include stack -----

  ghost predicate Ordered(stack: seq<IncludeStruct>, base: nat) {
    stack != [] ==>
      var i := stack[|stack| - 1];
      i.baseIfPointer <= base && Ordered(stack[..|stack| - 1], i.baseIfPointer)
  }

  ghost function Frames(entries: seq<Entry>, base: nat, stack: seq<IncludeStruct>): (r: seq<Frame>)
    requires base <= |entries| && Ordered(stack, base)
    ensures |r| == |stack|
  {
    if stack == [] then []
    else
      var i := stack[|stack| - 1];
      var b := i.baseIfPointer;
      Frames(entries, b, stack[..|stack| - 1])
      + [Frame(FileState(b, AllConstant(entries[..b]), entries[b..base], false), i.cLine, i.chain)]
  }

  /** Frames depend only on the entries below the base. */
  lemma {:induction false} FramesBelow(a: seq<Entry>, b: seq<Entry>, base: nat, stack: seq<IncludeStruct>)
    requires base <= |a| && base <= |b| && a[..base] == b[..base] && Ordered(stack, base)
    ensures Frames(a, base, stack) == Frames(b, base, stack)
    decreases |stack|
  {
    if stack != [] {
      var n := stack[|stack| - 1].baseIfPointer;
      assert a[..n] == a[..base][..n] && b[..n] == b[..base][..n];
      assert a[n..base] == a[..base][n..] && b[n..base] == b[..base][n..];
      FramesBelow(a, b, n, stack[..|stack| - 1]);
    }
  }

  // ----- Why it ends -----

  function ChainSize(chain: Chain): nat {
    if chain == [] then 0 else 1 + |chain[0]| + ChainSize(chain[1..])
  }

  /** What is left at a nesting level: files further in may be of any size, but each costs a line here. */
  function Size(stack: seq<IncludeStruct>, cLine: seq<Line>, level: nat): nat
    requires level >= 1
  {
    if level > |stack| then 0
    else 1 + |if level < |stack| then stack[level].cLine else cLine| + ChainSize(stack[level - 1].chain)
  }

  function Sizes(stack: seq<IncludeStruct>, cLine: seq<Line>): (r: seq<nat>)
    ensures |r| == 9
  {
    seq(9, j requires 0 <= j => Size(stack, cLine, j + 1))
  }

  ghost predicate LessAt(a: seq<nat>, b: seq<nat>, level: nat) {
    1 <= level <= |a| && level <= |b| && a[..level - 1] == b[..level - 1] && a[level - 1] < b[level - 1]
  }

  /** Less was left at some level, and no more at the levels around it. */
  ghost predicate Less(a: seq<nat>, b: seq<nat>, open: nat) {
    exists level | 1 <= level <= open :: LessAt(a, b, level)
  }

  lemma LessTrans(a: seq<nat>, b: seq<nat>, c: seq<nat>, open: nat, open': nat)
    requires |a| == |b| == |c| == 9 && Less(a, b, open) && Less(b, c, open') && open' <= 9 && open <= 9
    requires forall j | open <= j < 9 :: a[j] == 0
    requires forall j | open' <= j < 9 :: b[j] == 0
    ensures Less(a, c, open)
  {
    var i :| 1 <= i <= open && LessAt(a, b, i);
    var k :| 1 <= k <= open' && LessAt(b, c, k);
    var m := if i < k then i else k;
    assert a[..m - 1] == a[..i - 1][..m - 1] && b[..m - 1] == b[..i - 1][..m - 1];
    assert b[..m - 1] == b[..k - 1][..m - 1] && c[..m - 1] == c[..k - 1][..m - 1];
    assert i < k ==> b[..k - 1][i - 1] == c[..k - 1][i - 1];
    assert k < i ==> a[..i - 1][k - 1] == b[..i - 1][k - 1];
    assert LessAt(a, c, m);
  }

  lemma PopSizes(stack: seq<IncludeStruct>)
    requires 0 < |stack| <= 9
    ensures var n := |stack|; var i := stack[n - 1];
            && (i.chain != [] ==>
                  Less(Sizes(stack[n - 1 := i.(chain := i.chain[1..])], i.chain[0]), Sizes(stack, []), n))
            && (n > 1 && i.chain == [] ==> Less(Sizes(stack[..n - 1], i.cLine), Sizes(stack, []), n))
  {
    var n := |stack|;
    var i, was := stack[n - 1], Sizes(stack, []);
    if i.chain != [] {
      assert LessAt(Sizes(stack[n - 1 := i.(chain := i.chain[1..])], i.chain[0]), was, n);
    } else if n > 1 {
      var now := Sizes(stack[..n - 1], i.cLine);
      assert now[n - 2] == was[n - 2];
      assert LessAt(now, was, n);
    }
  }

  lemma LineSizes(stack: seq<IncludeStruct>, cLine: seq<Line>)
    requires 0 < |stack| <= 9 && cLine != []
    ensures Less(Sizes(stack, cLine[1..]), Sizes(stack, cLine), |stack|)
  {
    assert LessAt(Sizes(stack, cLine[1..]), Sizes(stack, cLine), |stack|);
  }

  lemma SizesZero(stack: seq<IncludeStruct>, cLine: seq<Line>)
    ensures forall j | |stack| <= j < 9 :: Sizes(stack, cLine)[j] == 0
  {
  }

  /** Less at some level is less in the lexicographic order. */
  lemma LessIsLess(a: seq<nat>, b: seq<nat>, open: nat)
    requires |a| == |b| == 9 && Less(a, b, open)
    ensures (b[0], b[1], b[2], b[3], b[4], b[5], b[6], b[7], b[8] decreases to
             a[0], a[1], a[2], a[3], a[4], a[5], a[6], a[7], a[8])
  {
    var k :| 1 <= k <= open && LessAt(a, b, k);
    assert forall j | 0 <= j < k - 1 :: a[j] == a[..k - 1][j] == b[j];
    assert k == 1 || k == 2 || k == 3 || k == 4 || k == 5 || k == 6 || k == 7 || k == 8 || k == 9;
  }

  /** At the end of a file. */
  lemma FinishPop(env: Env, s: FileState, outer: seq<Frame>, f: Frame, h: History)
    requires |outer| < INCLUDE_NEST
    ensures f.chain != [] ==>
              Finish(env, s, [], outer + [f], h)
                  == Finish(env, Fresh(s), f.chain[0], outer + [f.(chain := f.chain[1..])], h)
    ensures f.chain == [] && outer == [] ==> Finish(env, s, [], outer + [f], h) == h
    ensures f.chain == [] && outer != [] ==>
              Finish(env, s, [], outer + [f], h) == Finish(env, f.state, f.lines, outer, h)
  {
    var all := outer + [f];
    assert all[..|all| - 1] == outer && all[|all| - 1] == f;
    RunNone(env, s, h, |all|);
  }

  lemma FramesTop(entries: seq<Entry>, base: nat, stack: seq<IncludeStruct>, i: IncludeStruct)
    requires base <= |entries| && Ordered(stack, base) && stack != []
    requires i.baseIfPointer == stack[|stack| - 1].baseIfPointer && i.cLine == stack[|stack| - 1].cLine
    ensures var init := stack[..|stack| - 1]; var b := i.baseIfPointer;
            && b <= base && Ordered(init, b)
            && Ordered(init + [i], base)
            && Frames(entries, base, init + [i])
               == Frames(entries, b, init) + [Frame(FileState(b, AllConstant(entries[..b]), entries[b..base], false),
                   i.cLine, i.chain)]
  {
    var init := stack[..|stack| - 1];
    assert (init + [i])[..|init|] == init;
  }

  lemma EmptyStack(base: nat)
    ensures Ordered([], base)
  {
  }

  lemma CutBelow(a: seq<Entry>, b: seq<Entry>, base: nat, n: nat)
    requires base <= |a| && |b| == base && a[..base] == b[..base] && n <= base
    ensures a[..n] == b[..n] && a[n..base] == b[n..]
  {
    assert a[..n] == a[..base][..n] && b[..n] == b[..base][..n];
    assert a[n..base] == a[..base][n..] && b[n..] == b[..base][n..];
  }

  lemma LessFrom(a: seq<nat>, b: seq<nat>, c: seq<nat>, open: nat, stack: seq<IncludeStruct>, cLine: seq<Line>)
    requires |a| == |b| == |c| == 9 && |stack| <= open <= 9 && a == Sizes(stack, cLine)
    requires Less(a, b, open) && (b == c || Less(b, c, 9))
    ensures Less(a, c, open) && Less(a, c, 9)
  {
    SizesZero(stack, cLine);
    if b != c {
      LessTrans(a, b, c, open, 9);
    }
    var k :| 1 <= k <= open && LessAt(a, c, k);
    assert 1 <= k <= 9 && LessAt(a, c, k);
  }

  lemma FinishInclude(env: Env, s: FileState, lines: seq<Line>, frames: seq<Frame>, h: History)
    requires |frames| < INCLUDE_NEST && lines != [] && lines[0].Include? && !Ignoring(s)
    ensures Finish(env, s, lines, frames, h)
            == Finish(env, s, lines[1..], frames,
                      RunChain(env, Inner(s), h + [Included(lines[0].id)], env.target(h, lines[0].id), |frames| + 1))
    ensures env.target(h, lines[0].id) == [] ==>
              Finish(env, s, lines, frames, h) == Finish(env, s, lines[1..], frames, h + [Included(lines[0].id)])
  {
    hide Inner;
  }

  lemma PushOrdered(stack: seq<IncludeStruct>, i: IncludeStruct, base: nat)
    requires Ordered(stack, i.baseIfPointer) && i.baseIfPointer <= base
    ensures Ordered(stack + [i], base)
  {
    assert (stack + [i])[..|stack|] == stack;
  }

  lemma SizesPush(stack: seq<IncludeStruct>, cLine: seq<Line>, i: IncludeStruct, chain: Chain)
    requires |stack| < 9 && i.cLine == cLine
    ensures chain != [] ==>
              Sizes(stack + [i.(chain := chain[1..])], chain[0])[..|stack|] == Sizes(stack, cLine)[..|stack|]
  {
  }

  lemma Running(s: FileState)
    requires !Ignoring(s)
    ensures !s.returned
  {
  }

  lemma LessBelow(a: seq<nat>, b: seq<nat>, c: seq<nat>, open: nat)
    requires |a| == |b| == |c| == 9 && open <= 9 && a[..open] == b[..open] && Less(b, c, open)
    ensures Less(a, c, open)
  {
    var k :| 1 <= k <= open && LessAt(b, c, k);
    assert a[..k - 1] == a[..open][..k - 1] && b[..k - 1] == b[..open][..k - 1];
    assert a[k - 1] == a[..open][k - 1] == b[k - 1];
    assert LessAt(a, c, k);
  }

  /** At the start, all that is left is the initial file or directory. */
  lemma FinishAll(env: Env, s: FileState, entries: seq<Entry>, i: IncludeStruct, initial: Chain)
    requires initial != [] && i == IncludeStruct(0, [], initial[1..]) && Ordered([i], 0) && s.entries == [] &&
             !s.returned
    ensures Finish(env, s, initial[0], Frames(entries, 0, [i]), []) == RunChain(env, s, [], initial, 1)
  {
    var f := Frame(FileState(0, AllConstant(entries[..0]), entries[0..0], false), [], initial[1..]);
    assert [i][..0] == [];
    assert Frames(entries, 0, [i]) == [] + [f] == [f];
    FinishFirst(env, s, f, [], initial[0]);
    assert initial == [initial[0]] + f.chain;
  }

  lemma {:induction false} FinishFirst(env: Env, s: FileState, f: Frame, h: History, lines: seq<Line>)
    requires s.entries == [] && !s.returned
    ensures Finish(env, s, lines, [f], h) == RunChain(env, s, h, [lines] + f.chain, 1)
    decreases |f.chain|
  {
    hide RunLines;
    var (s', h') := RunLines(env, s, h, lines, 1);
    RunKeepsOuter(env, s, h, lines, 1);
    var chain := [lines] + f.chain;
    assert chain[1..] == f.chain;
    assert Fresh(s') == s;
    if f.chain != [] {
      var rest := f.(chain := f.chain[1..]);
      assert [f][..0] + [rest] == [rest];
      FinishFirst(env, s, rest, h', f.chain[0]);
      assert [f.chain[0]] + rest.chain == f.chain;
    }
  }

  /** A file is left, with its IFs open, for a file that it includes. */
  lemma FramesPush(entries: seq<Entry>, s: FileState, stack: seq<IncludeStruct>, i: IncludeStruct)
    requires i.baseIfPointer <= |entries| && Ordered(stack, i.baseIfPointer)
    requires s == FileState(i.baseIfPointer, AllConstant(entries[..i.baseIfPointer]), entries[i.baseIfPointer..], false)
    ensures Ordered(stack + [i], |entries|)
    ensures Frames(entries, |entries|, stack + [i])
            == Frames(entries, i.baseIfPointer, stack) + [Frame(s, i.cLine, i.chain)]
  {
    PushOrdered(stack, i, |entries|);
    assert (stack + [i])[..|stack|] == stack;
    assert entries[i.baseIfPointer..|entries|] == entries[i.baseIfPointer..];
  }
}
