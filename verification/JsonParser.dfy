/**
 The loop of the JSON parser with its variables (src/json.c).  No turn of it
 touches memory that is not there: that is what a step that is not Broken means.
 */
module JsonParser {
  import opened Bytes
  import opened Json
  import opened JsonFirstPass
  import opened JsonCounts
  import opened JsonSecondPass
  import opened JsonTree
  import opened JsonValues
  import opened JsonAccept
  import opened JsonDocument

  datatype Turn = Goes | Stops | Fails

  class Parser {
    const json: Text
    var firstPass: bool
    var ptr: int
    var flags: Flags
    var num: Num
    var stringLength: nat
    var top: int
    var root: int
    var alloc: int
    var nodes: seq<Node>

    ghost function View(): State
      reads this
    {
      State(ptr, flags, num, stringLength, top, root, alloc, nodes)
    }

    /** What the turn does is what the step says. */
    ghost predicate Did(o: Outcome, r: Turn)
      reads this
    {
      match r
      case Goes => o == More(View())
      case Stops => o == Finished(View())
      case Fails => o == Failed
    }

    constructor (json: Text)
      ensures this.json == json && firstPass && View() == Start(NIL, [])
    {
      this.json := json;
      firstPass, ptr, flags, num, stringLength := true, 0, Flags(false, true, false, false, false, false),
          Num(0, false, false, false, false), 0;
      top, root, alloc, nodes := NIL, NIL, NIL, [];
    }

    /** Between the passes: back to the start of the text, with the list of values. */
    method Restart()
      modifies this
      ensures View() == Start(old(root), old(nodes)) && firstPass == false
    {
      firstPass, ptr, flags, num, stringLength := false, 0, Flags(false, true, false, false, false, false),
          Num(0, false, false, false, false), 0;
      alloc := root;
      top, root := NIL, NIL;
    }

    method NewNode(kind: Kind) returns (r: Turn)
      requires !NewValue(firstPass, View(), kind).Broken?
      modifies this`nodes, this`root, this`top, this`alloc
      ensures r == Goes && NewValue(firstPass, old(View()), kind) == More(View())
    {
      if !firstPass {
        var value := nodes[alloc];
        top := alloc;
        alloc := if alloc + 1 < |nodes| then alloc + 1 else NIL;
        if root == NIL {
          root := top;
        }
        match value.kind {
          case Array =>
            if value.length != 0 {
              value := value.(slots := Slots(value.length), length := 0);
            }
          case Object =>
            if value.length != 0 {
              value := value.(slots := Slots(value.length), buffer := Cells(value.keyBytes), objectMem := 0,
                  length := 0);
            }
          case Str => value := value.(buffer := Cells(value.length + 1), length := 0);
          case _ =>
        }
        nodes := nodes[top := value];
        return Goes;
      }
      nodes := nodes + [NEW_NODE.(kind := kind, parent := top)];
      if root == NIL {
        root := |nodes| - 1;
      }
      top, alloc := |nodes| - 1, |nodes| - 1;
      return Goes;
    }

    method StringAdd(bytes: seq<Byte>)
      requires Add(firstPass, View(), bytes).More?
      modifies this`nodes, this`stringLength
      ensures Add(firstPass, old(View()), bytes) == More(View())
    {
      for i := 0 to |bytes|
        invariant Add(firstPass, View(), bytes[i..]) == Add(firstPass, old(View()), bytes)
        invariant Add(firstPass, View(), bytes[i..]).More?
        invariant View() == old(View()).(nodes := nodes, stringLength := stringLength)
      {
        assert bytes[i..][1..] == bytes[i + 1..];
        if !firstPass {
          PutCell(bytes[i]);
        }
        stringLength := stringLength + 1;
      }
    }

    method PutCell(b: Byte)
      requires Write(View(), b).More?
      modifies this`nodes
      ensures Write(old(View()), b) == More(View())
    {
      var n := nodes[top];
      var at := (if n.kind == Object then n.objectMem else 0) + stringLength;
      nodes := nodes[top := n.(buffer := n.buffer[at := Full(b)])];
    }

    method StringChar(b: Byte) returns (r: Turn)
      requires b == ByteAt(json, ptr) && !StringStep(json, firstPass, View(), b).Broken?
      modifies this
      ensures firstPass == old(firstPass) && Did(StringStep(json, firstPass, old(View()), b), r)
    {
      hide Add, UnicodeEscape, EndString, Unescaped;
      if b == 0 || stringLength > UINT_MAX - 8 {
        return Fails;
      }
      if flags.escaped {
        flags := flags.(escaped := false);
        if b == 117 {
          var e := UnicodeEscape(json, ptr);
          if e == Invalid {
            return Fails;
          }
          AddWorks(firstPass, View().(ptr := e.ptr), e.bytes);
          ptr := e.ptr;
          StringAdd(e.bytes);
        } else {
          AddWorks(firstPass, View(), [Unescaped(b)]);
          StringAdd([Unescaped(b)]);
        }
        ptr := ptr + 1;
        return Goes;
      }
      if b == 92 {
        flags := flags.(escaped := true);
        ptr := ptr + 1;
        return Goes;
      }
      if b == 34 {
        r := CloseString();
        return;
      }
      AddWorks(firstPass, View(), [b]);
      StringAdd([b]);
      ptr := ptr + 1;
      return Goes;
    }

    method CloseString() returns (r: Turn)
      requires !EndString(firstPass, View()).Broken?
      modifies this
      ensures firstPass == old(firstPass) && Did(EndString(firstPass, old(View())), r)
    {
      hide Next;
      if !firstPass {
        PutCell(0);
      }
      flags := flags.(inString := false);
      var n := nodes[top];
      if n.kind == Str {
        nodes := nodes[top := n.(length := stringLength)];
        r := NextValue(false);
        return;
      }
      if firstPass {
        n := n.(keyBytes := n.keyBytes + stringLength + 1);
      } else {
        n := n.(slots := n.slots[n.length := n.slots[n.length].(nameAt := n.objectMem, nameLength := stringLength)],
                objectMem := n.objectMem + stringLength + 1);
      }
      nodes := nodes[top := n];
      flags := flags.(seekValue := true, needColon := true);
      ptr := ptr + 1;
      return Goes;
    }

    method NextValue(reproc: bool) returns (r: Turn)
      requires !Next(firstPass, View(), reproc).Broken?
      modifies this
      ensures firstPass == old(firstPass) && Did(Next(firstPass, old(View()), reproc), r)
    {
      if !reproc {
        ptr := ptr + 1;
      }
      flags := flags.(needComma := true);
      var p := nodes[top].parent;
      if p == NIL {
        flags := flags.(done := true);
        return Goes;
      }
      var parent := nodes[p];
      if parent.kind == Array {
        flags := flags.(seekValue := true);
      }
      if !firstPass {
        parent := parent.(slots := parent.slots[parent.length := parent.slots[parent.length].(value := top)]);
      }
      parent := parent.(length := parent.length + 1);
      if parent.length > UINT_MAX - 8 {
        return Fails;
      }
      nodes := nodes[p := parent];
      top := p;
      return Goes;
    }

    method SeekValue(b: Byte) returns (r: Turn)
      requires b == ByteAt(json, ptr) && !SeekStep(json, firstPass, View(), b).Broken?
      modifies this
      ensures firstPass == old(firstPass) && Did(SeekStep(json, firstPass, old(View()), b), r)
    {
      hide Next, NewValue, Literal, Reads;
      if White(b) {
        ptr := ptr + 1;
        return Goes;
      }
      if b == 93 {
        if 0 <= top < |nodes| && nodes[top].kind == Array {
          flags := flags.(needComma := false, seekValue := false);
          r := NextValue(false);
          return;
        }
        return Fails;
      }
      if flags.needComma {
        if b != 44 {
          return Fails;
        }
        flags := flags.(needComma := false);
        ptr := ptr + 1;
        return Goes;
      }
      if flags.needColon {
        if b != 58 {
          return Fails;
        }
        flags := flags.(needColon := false);
        ptr := ptr + 1;
        return Goes;
      }
      flags := flags.(seekValue := false);
      r := AnyValue(b);
    }

    method AnyValue(b: Byte) returns (r: Turn)
      requires b == ByteAt(json, ptr) && !ValueStep(json, firstPass, View(), b).Broken?
      modifies this
      ensures firstPass == old(firstPass) && Did(ValueStep(json, firstPass, old(View()), b), r)
    {
      hide Next, NewValue, Literal, Reads;
      if b == 123 {
        r := NewNode(Object);
        ptr := ptr + 1;
      } else if b == 91 {
        flags := flags.(seekValue := true);
        r := NewNode(Array);
        ptr := ptr + 1;
      } else if b == 34 {
        flags, stringLength := flags.(inString := true), 0;
        r := NewNode(Str);
        ptr := ptr + 1;
      } else if b == 116 {
        if !Reads(json, ptr, [114, 117, 101]) {
          return Fails;
        }
        r := Word(3, Boolean, true);
      } else if b == 102 {
        if !Reads(json, ptr, [97, 108, 115, 101]) {
          return Fails;
        }
        r := Word(4, Boolean, false);
      } else if b == 110 {
        if !Reads(json, ptr, [117, 108, 108]) {
          return Fails;
        }
        r := Word(3, Null, false);
      } else if Digit(b) || b == 45 {
        r := AnyNumber(b);
      } else {
        return Fails;
      }
    }

    method Word(n: nat, kind: Kind, value: bool) returns (r: Turn)
      requires !Literal(firstPass, View(), n, kind, value).Broken?
      modifies this
      ensures firstPass == old(firstPass) && Did(Literal(firstPass, old(View()), n, kind, value), r)
    {
      hide Next, NewValue;
      NewWorks(firstPass, View(), kind);
      r := NewNode(kind);
      ptr := ptr + n;
      nodes := nodes[top := nodes[top].(boolean := value)];
      r := NextValue(false);
    }

    method AnyNumber(b: Byte) returns (r: Turn)
      requires b == ByteAt(json, ptr) && (Digit(b) || b == 45) && !ValueStep(json, firstPass, View(), b).Broken?
      modifies this
      ensures firstPass == old(firstPass) && Did(ValueStep(json, firstPass, old(View()), b), r)
    {
      hide Next, NewValue, Literal, Reads, SkipNumber;
      NewWorks(firstPass, View(), Integer);
      r := NewNode(Integer);
      if !firstPass {
        ghost var p := ptr;
        var c := b;
        while NumChar(c)
          invariant View() == old(View()).(nodes := nodes, root := root, top := top, alloc := alloc, ptr := ptr)
          invariant NewValue(false, old(View()), Integer) == More(View().(ptr := p)) && !firstPass
          invariant 0 <= ptr <= |json| && c == ByteAt(json, ptr) && SkipNumber(json, ptr) == SkipNumber(json, p)
          decreases |json| - ptr
        {
          SkipOne(json, ptr);
          ptr := ptr + 1;
          c := if ptr == |json| then 0 else json[ptr];
        }
        SkipOne(json, ptr);
        r := NextValue(true);
        return;
      }
      num := Num(0, false, false, false, false);
      if b == 45 {
        num := num.(negative := true);
        ptr := ptr + 1;
      }
    }

    method InObject(b: Byte) returns (r: Turn)
      requires !ObjectStep(firstPass, View(), b).Broken?
      modifies this
      ensures firstPass == old(firstPass) && Did(ObjectStep(firstPass, old(View()), b), r)
    {
      hide Next;
      if White(b) {
        ptr := ptr + 1;
        return Goes;
      }
      if b == 34 {
        if flags.needComma {
          return Fails;
        }
        flags, stringLength := flags.(inString := true), 0;
        ptr := ptr + 1;
        return Goes;
      }
      if b == 125 {
        flags := flags.(needComma := false);
        r := NextValue(false);
        return;
      }
      if b == 44 && flags.needComma {
        flags := flags.(needComma := false);
        ptr := ptr + 1;
        return Goes;
      }
      return Fails;
    }

    method NumberGoesOn(b: Byte) returns (r: Turn)
      requires firstPass && 0 <= top < |nodes| && !NumberStep(View(), b).Broken?
      modifies this
      ensures firstPass && Did(NumberStep(old(View()), b), r)
    {
      hide Next, NumberChar;
      var act := NumberChar(nodes[top], num, b);
      if act.Bad? {
        return Fails;
      }
      if act.End? {
        nodes := nodes[top := Signed(nodes[top], num)];
        r := NextValue(true);
        return;
      }
      nodes, num := nodes[top := act.n], act.num;
      if !act.reproc {
        ptr := ptr + 1;
      }
      return Goes;
    }

    method Turns() returns (r: Turn)
      requires !Step(json, firstPass, View()).Broken? && (!firstPass ==> !InNumber(View()))
      modifies this
      ensures firstPass == old(firstPass) && Did(Step(json, firstPass, old(View())), r)
    {
      hide StringStep, SeekStep, ObjectStep, NumberStep;
      var b := ByteAt(json, ptr);
      if flags.inString {
        r := StringChar(b);
      } else if flags.done {
        if b == 0 {
          return Stops;
        }
        if !White(b) {
          return Fails;
        }
        ptr := ptr + 1;
        return Goes;
      } else if flags.seekValue {
        r := SeekValue(b);
      } else if nodes[top].kind == Object {
        r := InObject(b);
      } else {
        r := NumberGoesOn(b);
      }
    }

    /** The first pass: it ends on every text. */
    method CountPass() returns (ok: bool)
      requires firstPass && View() == Start(NIL, [])
      modifies this
      ensures firstPass && Run(json, true, Start(NIL, [])) == if ok then Accepted(View()) else Rejected
    {
      hide Step, Measure, Run, Tree, Shaped;
      ghost var s0 := Start(NIL, []);
      StartSound(json);
      while true
        invariant firstPass && WF(json, View()) && Run(json, true, View()) == Run(json, true, s0)
        decreases Measure(json, View())
      {
        StepSound(json, View());
        RunIs(json, true, View());
        NonNegative(json, View());
        var r := Turns();
        match r
        case Stops => return true;
        case Fails => return false;
        case Goes =>
      }
    }

    /** The second pass: it finds a place for everything. */
    method FillPass(ghost first: State)
      requires !firstPass && View() == Start(0, first.nodes) && Run(json, true, Start(NIL, [])) == Accepted(first)
      modifies this
      ensures Run(json, false, Start(0, first.nodes)) == Accepted(View())
    {
      hide Step, Measure, Run, Tree, Shaped, Sim, WF, Kept, Follows;
      ghost var s0 := Start(0, first.nodes);
      ghost var s1 := Start(NIL, []);
      StartSims(json, first);
      while true
        invariant !firstPass && WF(json, s1) && Sim(s1, View(), first.nodes) && Run(json, true, s1) == Accepted(first)
        invariant Run(json, false, View()) == Run(json, false, s0)
        decreases Measure(json, View())
      {
        WFTop(json, s1);
        StepSound(json, s1);
        RunIs(json, true, s1);
        MeasureSim(json, s1, View(), first.nodes);
        RunIs(json, false, View());
        NoNumber(s1, View(), first.nodes);
        ghost var t1, t2 := s1, View();
        if Step(json, true, s1).Finished? {
          FinishedDone(json, s1);
          DoneSim(json, s1, View(), first.nodes);
        } else {
          t1, t2 := PairStep(json, s1, View(), first.nodes, Step(json, true, s1).s);
          WFTop(json, t1);
          MeasureSim(json, t1, t2, first.nodes);
          NonNegative(json, t1);
        }
        var r := Turns();
        if r == Stops {
          return;
        }
        s1 := t1;
      }
    }
  }

  lemma StartSound(json: Text)
    ensures WF(json, Start(NIL, []))
  {
  }

  lemma RunIs(json: Text, first: bool, s: State)
    ensures var o := Step(json, first, s);
            && (o.Finished? ==> Run(json, first, s) == Accepted(o.s))
            && (o.Failed? ==> Run(json, first, s) == Rejected)
            && (o.Broken? ==> Run(json, first, s) == Crashed)
            && (o.More? && 0 <= Measure(json, o.s) < Measure(json, s) ==> Run(json, first, s) == Run(json, first, o.s))
  {
    hide Step, Measure;
  }

  lemma NoNumber(s1: State, s2: State, f: seq<Node>)
    requires Sim(s1, s2, f) && NIL <= s1.top < |s1.nodes|
    ensures !InNumber(s2)
  {
    SameTop(s1, s2, f);
  }

  lemma FinishedDone(json: Text, s: State)
    requires WF(json, s) && Step(json, true, s).Finished?
    ensures s.flags.done && Step(json, true, s).s == s
  {
    hide Measure, Step;
    StepSound(json, s);
  }

  /** A byte order mark is skipped. */
  function WithoutMark(text: Text): Text {
    if |text| >= 3 && text[0] == 0xef && text[1] == 0xbb && text[2] == 0xbf then text[3..] else text
  }

  /**
   json_parse: the values of the text as a tree, the first of them the root; or
   nothing.  A text that is a value of JSON is accepted, and the values represent it.
   */
  method JsonParse(text: Text) returns (ok: bool, values: seq<Node>)
    ensures var json := WithoutMark(text);
            var r := Run(json, true, Start(NIL, []));
            && ok == r.Accepted?
            && (ok ==> |values| == |r.s.nodes| > 0 && forall i | 0 <= i < |values| :: Filled(values[i], r.s.nodes[i]))
    ensures var json := WithoutMark(text);
            var r := Run(json, true, Start(NIL, []));
            ok ==>
              var r2 := Run(json, false, Start(0, r.s.nodes));
              r2.Accepted? && values == r2.s.nodes && IsTree(values)
    ensures forall v | Writes(WithoutMark(text), v) && Fits(v) ::
              (ok <==> Readable(v)) && (ok ==> |values| == Count(v) && Shown(values, 0, v))
  {
    hide Run, Filled, IsTree, Writes, Fits, Readable, Shown, Count;
    forall v | Writes(WithoutMark(text), v) && Fits(v)
      ensures Run(WithoutMark(text), true, Start(NIL, [])).Accepted? <==> Readable(v)
      ensures var r := Run(WithoutMark(text), true, Start(NIL, []));
              r.Accepted? ==>
                var r2 := Run(WithoutMark(text), false, Start(0, r.s.nodes));
                r2.Accepted? && |r2.s.nodes| == Count(v) && Shown(r2.s.nodes, 0, v)
    {
      WritesValue(WithoutMark(text), v);
    }
    var json := text;
    if |json| >= 3 && json[0] == 0xef && json[1] == 0xbb && json[2] == 0xbf {
      json := json[3..];
    }
    var p := new Parser(json);
    ok := p.CountPass();
    if !ok {
      return false, [];
    }
    ghost var first := p.View();
    ghost var e2 := TwoPasses(json);
    ghost var _ := ResultIsTree(json);
    p.Restart();
    p.FillPass(first);
    return true, p.nodes;
  }

  lemma AddWorks(first: bool, s: State, bytes: seq<Byte>)
    requires !Add(first, s, bytes).Broken?
    ensures Add(first, s, bytes).More?
    decreases |bytes|
  {
  }

  lemma NewWorks(first: bool, s: State, kind: Kind)
    ensures var o := NewValue(first, s, kind);
            o.Broken? || (o.More? && HasTop(o.s) && o.s.ptr == s.ptr && o.s.flags == s.flags && o.s.num == s.num &&
                o.s.stringLength == s.stringLength)
  {
  }
}
