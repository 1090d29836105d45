/**
 Why the second pass of the JSON parser fits what the first has counted.
 */
module JsonFirstPass {
  import opened Bytes
  import opened Json

  // ----- The first pass never breaks -----

  predicate Holds(k: Kind) {
    k == Array || k == Object
  }

  predicate IsNumber(k: Kind) {
    k == Integer || k == Double
  }

  /** Before the second pass nothing has been allocated. */
  predicate Raw(n: Node) {
    n.buffer == [] && n.slots == [] && n.objectMem == 0
  }

  ghost predicate Tree(nodes: seq<Node>) {
    forall i | 0 <= i < |nodes| ::
      Raw(nodes[i]) && NIL <= nodes[i].parent < i && (nodes[i].parent != NIL ==> Holds(nodes[nodes[i].parent].kind))
  }

  /** The root is the first value of the list. */
  predicate RootFirst(s: State) {
    s.root == if s.nodes == [] then NIL else 0
  }

  predicate Shaped(s: State) {
    && RootFirst(s)
    && NIL <= s.top < |s.nodes|
    && (s.flags.escaped ==> s.flags.inString)
    && (s.flags.needColon ==> s.flags.seekValue && HasTop(s) && Top(s).kind == Object)
    && (s.flags.done ==> !s.flags.inString && !s.flags.seekValue && HasTop(s) && Top(s).parent == NIL)
    && (s.flags.inString ==>
          !s.flags.seekValue && HasTop(s) &&
          ((Top(s).kind == Object && !s.flags.needComma) || (Top(s).kind == Str && Top(s).length == 0)))
    && (s.flags.seekValue ==> HasTop(s) ==> Top(s).kind == Array || (Top(s).kind == Object && !s.flags.needComma))
    && (!s.flags.inString && !s.flags.done && !s.flags.seekValue ==>
          HasTop(s) && (Top(s).kind == Object || IsNumber(Top(s).kind)))
  }

  ghost predicate WF(json: Text, s: State) {
    0 <= s.ptr <= |json| && Tree(s.nodes) && Shaped(s)
  }

  predicate Quiet(s: State) {
    !s.flags.inString && !s.flags.done && !s.flags.seekValue && !s.flags.escaped && !s.flags.needColon
  }

  /** The step from s to its outcome is sound, and brings the end nearer. */
  ghost predicate Sound(json: Text, s: State, o: Outcome) {
    && !o.Broken?
    && (o.Finished? ==> o.s == s && s.flags.done)
    && (o.More? ==> WF(json, o.s) && 0 <= Measure(json, o.s) < Measure(json, s))
  }

  lemma NextSound(json: Text, s: State, reproc: bool)
    requires 0 <= s.ptr <= |json| && (!reproc ==> s.ptr < |json|) && Tree(s.nodes) && HasTop(s) && Quiet(s) &&
             RootFirst(s)
    ensures var o := Next(true, s, reproc);
            && !o.Broken? && !o.Finished?
            && (o.More? ==> WF(json, o.s) && Measure(json, o.s) == 4 * (|json| - o.s.ptr)
                            && o.s.ptr == if reproc then s.ptr else s.ptr + 1)
  {
  }

  lemma TreeUpdate(s: State, n: Node)
    requires Tree(s.nodes) && HasTop(s) && Raw(n) && n.parent == Top(s).parent && (Holds(Top(s).kind) ==> Holds(n.kind))
    ensures Tree(WithTop(s, n).nodes) && HasTop(WithTop(s, n)) && Top(WithTop(s, n)) == n
  {
  }

  lemma TreeTop(s: State)
    requires Tree(s.nodes) && HasTop(s)
    ensures Raw(Top(s)) && NIL <= Top(s).parent < s.top
    ensures Top(s).parent != NIL ==> Holds(s.nodes[Top(s).parent].kind)
  {
  }

  lemma TreeNew(s: State, kind: Kind)
    requires Tree(s.nodes) && NIL <= s.top < |s.nodes| && (HasTop(s) ==> Holds(Top(s).kind))
    ensures var o := NewValue(true, s, kind);
            o.More? && Tree(o.s.nodes) && HasTop(o.s) && Top(o.s) == NEW_NODE.(kind := kind, parent := s.top)
            && o.s.ptr == s.ptr && o.s.flags == s.flags && o.s.num == s.num && o.s.stringLength == s.stringLength
            && (RootFirst(s) ==> RootFirst(o.s))
  {
  }

  lemma {:induction false} AddSound(s: State, bytes: seq<Byte>)
    ensures Add(true, s, bytes) == More(s.(stringLength := s.stringLength + |bytes|))
    decreases |bytes|
  {
    if bytes != [] {
      AddSound(s.(stringLength := s.stringLength + 1), bytes[1..]);
    }
  }

  lemma StringSound(json: Text, s: State)
    requires WF(json, s) && s.flags.inString
    ensures Sound(json, s, StringStep(json, true, s, ByteAt(json, s.ptr)))
  {
    hide Add, UnicodeEscape, Next, Tree;
    var b := ByteAt(json, s.ptr);
    var s' := s.(flags := s.flags.(escaped := false));
    if b == 0 || s.stringLength > UINT_MAX - 8 {
    } else if s.flags.escaped {
      if b == 117 {
        EscapeInside(json, s.ptr);
        match UnicodeEscape(json, s.ptr)
        case Invalid =>
        case Decoded(ptr, bytes) => AddSound(s'.(ptr := ptr), bytes);
      } else {
        AddSound(s', [Unescaped(b)]);
      }
    } else if b == 34 {
      EndSound(json, s);
    } else {
      AddSound(s, [b]);
    }
  }

  lemma EscapeInside(json: Text, p: int)
    ensures UnicodeEscape(json, p).Decoded? ==> p + 4 <= UnicodeEscape(json, p).ptr < |json|
  {
  }

  lemma EndSound(json: Text, s: State)
    requires WF(json, s) && s.flags.inString && !s.flags.escaped && s.ptr < |json|
    ensures Sound(json, s, EndString(true, s))
  {
    hide Next, Tree;
    var n := Top(s);
    var s' := s.(flags := s.flags.(inString := false));
    TreeTop(s);
    TreeUpdate(s', n.(length := s.stringLength));
    TreeUpdate(s', n.(keyBytes := n.keyBytes + s.stringLength + 1));
    if n.kind == Str {
      NextSound(json, WithTop(s', n.(length := s.stringLength)), false);
    }
  }

  lemma SeekSound(json: Text, s: State)
    requires WF(json, s) && s.flags.seekValue
    ensures Sound(json, s, SeekStep(json, true, s, ByteAt(json, s.ptr)))
  {
    hide Next, ValueStep, Tree;
    var b := ByteAt(json, s.ptr);
    if !White(b) {
      if b == 93 {
        if HasTop(s) && Top(s).kind == Array {
          NextSound(json, s.(flags := s.flags.(needComma := false, seekValue := false)), false);
        }
      } else if !s.flags.needComma && !s.flags.needColon {
        ValueSound(json, s.(flags := s.flags.(seekValue := false)));
      }
    }
  }

  lemma ValueSound(json: Text, s: State)
    requires 0 <= s.ptr <= |json| && Tree(s.nodes) && Quiet(s) && !s.flags.needComma && RootFirst(s)
    requires NIL <= s.top < |s.nodes| && (HasTop(s) ==> Holds(Top(s).kind))
    ensures var o := ValueStep(json, true, s, ByteAt(json, s.ptr));
            !o.Broken? && !o.Finished? && (o.More? ==>
                WF(json, o.s) && 0 <= Measure(json, o.s) < 4 * (|json| - s.ptr) + 3)
  {
    hide Next, Reads, Tree, NewValue;
    var b := ByteAt(json, s.ptr);
    ReadsInside(json, s.ptr);
    TreeNew(s, Object);
    TreeNew(s, Integer);
    TreeNew(s.(flags := s.flags.(seekValue := true)), Array);
    TreeNew(s.(flags := s.flags.(inString := true), stringLength := 0), Str);
    if b == 116 || b == 102 {
      LiteralSound(json, s, if b == 116 then 3 else 4, Boolean, b == 116);
    } else if b == 110 {
      LiteralSound(json, s, 3, Null, false);
    }
  }

  lemma ReadsInside(json: Text, p: int)
    ensures Reads(json, p, [114, 117, 101]) || Reads(json, p, [117, 108, 108]) ==> p + 3 < |json|
    ensures Reads(json, p, [97, 108, 115, 101]) ==> p + 4 < |json|
  {
  }

  lemma LiteralSound(json: Text, s: State, n: nat, kind: Kind, value: bool)
    requires 0 <= s.ptr && Tree(s.nodes) && Quiet(s) && !Holds(kind) && n > 0 && RootFirst(s)
    requires NIL <= s.top < |s.nodes| && (HasTop(s) ==> Holds(Top(s).kind))
    ensures s.ptr + n < |json| ==>
              var o := Literal(true, s, n, kind, value);
              !o.Broken? && !o.Finished? && (o.More? ==>
                  WF(json, o.s) && 0 <= Measure(json, o.s) < 4 * (|json| - s.ptr))
  {
    hide Next, NewValue, Tree;
    TreeNew(s, kind);
    if s.ptr + n < |json| {
      var s' := NewValue(true, s, kind).s;
      TreeUpdate(s', Top(s').(boolean := value));
      NextSound(json, WithTop(s', Top(s').(boolean := value)).(ptr := s.ptr + n), false);
    }
  }

  /** A number stays a number, and either a character is used up or an integer turns into a double. */
  lemma NumberGoes(n: Node, num: Num, b: Byte)
    requires IsNumber(n.kind)
    ensures var a := NumberChar(n, num, b);
            a.Go? ==>
              && IsNumber(a.n.kind) && a.n == n.(kind := a.n.kind, integer := a.n.integer)
              && (if a.reproc then n.kind == Integer && a.n.kind == Double else NumChar(b))
              && (n.kind == Double ==> a.n.kind == Double)
  {
    hide WouldOverflow;
  }

  lemma SignedSame(n: Node, num: Num)
    ensures var n' := Signed(n, num); n' == n.(integer := n'.integer)
  {
  }

  lemma NumberSound(json: Text, s: State)
    requires WF(json, s) && Quiet(s) && IsNumber(Top(s).kind)
    ensures Sound(json, s, NumberStep(s, ByteAt(json, s.ptr)))
  {
    hide Next, NumberChar, Tree, Signed;
    var a, n := NumberChar(Top(s), s.num, ByteAt(json, s.ptr)), Signed(Top(s), s.num);
    TreeTop(s);
    NumberGoes(Top(s), s.num, ByteAt(json, s.ptr));
    SignedSame(Top(s), s.num);
    match a
    case Go(n, _, _) => TreeUpdate(s, n);
    case End =>
      TreeUpdate(s, n);
      NextSound(json, WithTop(s, n), true);
    case Bad =>
  }

  lemma ObjectSound(json: Text, s: State)
    requires WF(json, s) && Quiet(s) && Top(s).kind == Object
    ensures Sound(json, s, ObjectStep(true, s, ByteAt(json, s.ptr)))
  {
    hide Next;
    if s.ptr < |json| {
      NextSound(json, s.(flags := s.flags.(needComma := false)), false);
    }
  }

  lemma StepSound(json: Text, s: State)
    requires WF(json, s)
    ensures Sound(json, s, Step(json, true, s))
  {
    hide StringStep, SeekStep, ObjectStep, NumberStep, Measure;
    if s.flags.inString {
      StringSound(json, s);
    } else if s.flags.done {
      DoneSound(json, s);
    } else if s.flags.seekValue {
      SeekSound(json, s);
    } else if Top(s).kind == Object {
      ObjectSound(json, s);
    } else {
      NumberSound(json, s);
    }
  }

  lemma DoneSound(json: Text, s: State)
    requires WF(json, s) && s.flags.done
    ensures Sound(json, s, Step(json, true, s))
  {
  }

  /** The first pass ends with an answer on every text. */
  lemma {:induction false} FirstPassEnds(json: Text, s: State)
    requires WF(json, s)
    ensures Run(json, true, s) != Crashed
    decreases Measure(json, s)
  {
    hide Step, Measure, WF;
    StepSound(json, s);
    match Step(json, true, s)
    case More(s') => FirstPassEnds(json, s');
    case _ =>
  }
}

/**
 What the first pass has counted so far is never more than what it counts in the end.
 */
module JsonCounts {
  import opened Bytes
  import opened Json
  import opened JsonFirstPass

  predicate InNumber(s: State) {
    !s.flags.inString && !s.flags.done && !s.flags.seekValue && HasTop(s) && IsNumber(Top(s).kind)
  }

  /** A value of the list, and what becomes of it; `open` for a string being read, `num` for a number. */
  predicate Grown(a: Node, f: Node, open: bool, num: bool) {
    && f.parent == a.parent
    && (f.kind == a.kind || (num && IsNumber(a.kind) && IsNumber(f.kind)))
    && a.length <= f.length && a.keyBytes <= f.keyBytes
    && (a.kind == Str && !open ==> a.length == f.length)
  }

  /** There is still room for what is being read: in an object, a name is followed by a value. */
  predicate Room(s: State, final: seq<Node>) {
    HasTop(s) && s.top < |final| ==>
      var n, f := Top(s), final[s.top];
      && (s.flags.inString && n.kind == Str ==> s.stringLength <= f.length)
      && (s.flags.inString && n.kind == Object ==> n.keyBytes + s.stringLength + 1 <= f.keyBytes)
      && ((s.flags.inString || s.flags.seekValue) && n.kind == Object ==> n.length < f.length)
  }

  /** Every value being read will be one more in the value around it. */
  ghost predicate ChainRoom(nodes: seq<Node>, final: seq<Node>, t: int)
    decreases t
  {
    0 <= t < |nodes| ==>
      var p := nodes[t].parent;
      0 <= p ==> p < t && p < |final| && nodes[p].length < final[p].length && ChainRoom(nodes, final, p)
  }

  lemma ChainSame(a: seq<Node>, b: seq<Node>, final: seq<Node>, t: int)
    requires 0 <= t < |a| && t < |b| && a[t].parent == b[t].parent && forall i | 0 <= i < t :: a[i] == b[i]
    ensures ChainRoom(a, final, t) <==> ChainRoom(b, final, t)
    decreases t
  {
    var p := a[t].parent;
    if 0 <= p < t {
      ChainSame(a, b, final, p);
    }
  }

  ghost predicate Counted(s: State, final: seq<Node>) {
    && |s.nodes| <= |final| && Room(s, final) && ChainRoom(s.nodes, final, s.top)
    && forall i | 0 <= i < |s.nodes| ::
         Grown(s.nodes[i], final[i], s.flags.inString && i == s.top, InNumber(s) && i == s.top)
  }

  ghost predicate Back(s: State, o: Outcome, final: seq<Node>) {
    o.More? && Counted(o.s, final) ==> Counted(s, final)
  }

  /** Nothing but the value on top has changed, and that has grown. */
  lemma BackTop(s: State, s': State, final: seq<Node>)
    requires HasTop(s) && HasTop(s') && s'.nodes == s.nodes[s.top := Top(s')] && s'.top == s.top && Counted(s', final)
    requires Grown(Top(s'), final[s.top], s'.flags.inString, InNumber(s')) ==>
               Grown(Top(s), final[s.top], s.flags.inString, InNumber(s))
    requires Room(s, final) && Top(s).parent == Top(s').parent
    ensures Counted(s, final)
  {
    hide Grown, Room, InNumber;
    ChainSame(s.nodes, s'.nodes, final, s.top);
    forall i | 0 <= i < |s.nodes|
      ensures Grown(s.nodes[i], final[i], s.flags.inString && i == s.top, InNumber(s) && i == s.top)
    {
      assert i != s.top ==> s'.nodes[i] == s.nodes[i];
      assert Grown(s'.nodes[i], final[i], s'.flags.inString && i == s'.top, InNumber(s') && i == s'.top);
    }
  }

  lemma BackNext(s: State, reproc: bool, final: seq<Node>)
    requires Tree(s.nodes) && HasTop(s) && Quiet(s)
    ensures Back(s, Next(true, s, reproc), final)
  {
    var o := Next(true, s, reproc);
    if o.More? && Counted(o.s, final) {
      var s' := o.s;
      var p := Top(s).parent;
      if p != NIL {
        ChainSame(s.nodes, s'.nodes, final, p);
      }
      forall i | 0 <= i < |s.nodes|
        ensures Grown(s.nodes[i], final[i], false, InNumber(s) && i == s.top)
      {
        assert Grown(s'.nodes[i], final[i], s'.flags.inString && i == s'.top, InNumber(s') && i == s'.top);
      }
    }
  }

  lemma BackNew(s: State, kind: Kind, final: seq<Node>)
    requires Tree(s.nodes) && Quiet(s) && NIL <= s.top < |s.nodes| && (HasTop(s) ==> Holds(Top(s).kind))
    ensures var o := NewValue(true, s, kind);
            Counted(o.s, final) ==>
              Counted(s, final) && |s.nodes| <= |final| && (HasTop(s) ==> Top(s).length < final[s.top].length)
  {
    var o := NewValue(true, s, kind);
    if Counted(o.s, final) {
      var s' := o.s;
      if HasTop(s) {
        ChainSame(s.nodes, s'.nodes, final, s.top);
      }
      forall i | 0 <= i < |s.nodes|
        ensures Grown(s.nodes[i], final[i], false, false)
      {
        assert Grown(s'.nodes[i], final[i], s'.flags.inString && i == s'.top, InNumber(s') && i == s'.top);
      }
    }
  }

  lemma BackString(json: Text, s: State, final: seq<Node>)
    requires WF(json, s) && s.flags.inString
    ensures Back(s, StringStep(json, true, s, ByteAt(json, s.ptr)), final)
  {
    hide Add, UnicodeEscape, EndString, Counted, Tree;
    var b := ByteAt(json, s.ptr);
    var o := StringStep(json, true, s, b);
    var s' := s.(flags := s.flags.(escaped := false));
    if b == 0 || s.stringLength > UINT_MAX - 8 {
    } else if s.flags.escaped {
      if b == 117 {
        match UnicodeEscape(json, s.ptr)
        case Invalid =>
        case Decoded(ptr, bytes) => AddSound(s'.(ptr := ptr), bytes);
      } else {
        AddSound(s', [Unescaped(b)]);
      }
      if o.More? {
        BackLonger(s, o.s, final);
      }
    } else if b == 34 {
      BackEnd(json, s, final);
    } else {
      if b != 92 {
        AddSound(s, [b]);
      }
      BackLonger(s, o.s, final);
    }
  }

  lemma BackLonger(s: State, s': State, final: seq<Node>)
    requires Shaped(s) && s.flags.inString && s'.flags.inString && s'.top == s.top && s'.nodes == s.nodes
    requires s'.stringLength >= s.stringLength
    ensures Counted(s', final) ==> Counted(s, final)
  {
    if Counted(s', final) {
      assert s.nodes[s.top := Top(s')] == s.nodes;
      BackTop(s, s', final);
    }
  }

  lemma BackEnd(json: Text, s: State, final: seq<Node>)
    requires WF(json, s) && s.flags.inString && !s.flags.escaped
    ensures Back(s, EndString(true, s), final)
  {
    hide Next, Counted;
    var n := Top(s);
    var o := EndString(true, s);
    if o.More? && Counted(o.s, final) {
      var s' := s.(flags := s.flags.(inString := false));
      if n.kind == Str {
        var s'' := WithTop(s', n.(length := s.stringLength));
        BackNext(s'', false, final);
        CountedTop(s'', final);
        BackTop(s, s'', final);
      } else {
        CountedTop(o.s, final);
        BackTop(s, o.s, final);
      }
    }
  }

  lemma CountedTop(s: State, final: seq<Node>)
    requires Counted(s, final) && HasTop(s)
    ensures s.top < |final| && Grown(Top(s), final[s.top], s.flags.inString, InNumber(s)) && Room(s, final)
  {
    assert Grown(s.nodes[s.top], final[s.top], s.flags.inString && s.top == s.top, InNumber(s) && s.top == s.top);
  }

  lemma BackSame(s: State, s': State, final: seq<Node>)
    requires s'.nodes == s.nodes && s'.top == s.top && s'.flags.inString == s.flags.inString
    requires InNumber(s') == InNumber(s) && (s'.flags.seekValue || !s.flags.seekValue) &&
             s'.stringLength == s.stringLength
    ensures Counted(s', final) ==> Counted(s, final)
  {
  }

  lemma BackSeek(json: Text, s: State, final: seq<Node>)
    requires WF(json, s) && s.flags.seekValue
    ensures Back(s, SeekStep(json, true, s, ByteAt(json, s.ptr)), final)
  {
    hide Next, ValueStep, Counted, Tree;
    var b := ByteAt(json, s.ptr);
    var o := SeekStep(json, true, s, b);
    if o.More? && Counted(o.s, final) {
      if White(b) {
        BackSame(s, o.s, final);
      } else if b == 93 {
        var s' := s.(flags := s.flags.(needComma := false, seekValue := false));
        BackNext(s', false, final);
        BackSeeking(s, s', final);
      } else if s.flags.needComma || s.flags.needColon {
        BackSame(s, o.s, final);
      } else {
        BackValue(json, s, final);
      }
    }
  }

  lemma BackSeeking(s: State, s': State, final: seq<Node>)
    requires s'.nodes == s.nodes && s'.top == s.top && !s'.flags.inString && !s.flags.inString && s.flags.seekValue
    requires HasTop(s) ==> Holds(Top(s).kind)
    requires Counted(s', final) && Room(s, final)
    ensures Counted(s, final)
  {
  }

  /** A value begins: it will be a member of the object that looks for it. */
  lemma BackValue(json: Text, s: State, final: seq<Node>)
    requires WF(json, s) && s.flags.seekValue && !s.flags.needComma && !s.flags.needColon
    ensures Back(s, ValueStep(json, true, s.(flags := s.flags.(seekValue := false)), ByteAt(json, s.ptr)), final)
  {
    hide Next, Counted, Tree, Reads, ChainRoom, Grown;
    var b := ByteAt(json, s.ptr);
    var s0 := s.(flags := s.flags.(seekValue := false));
    var o := ValueStep(json, true, s0, b);
    if o.More? && Counted(o.s, final) {
      if b == 116 || b == 102 {
        BackLiteral(s0, if b == 116 then 3 else 4, Boolean, b == 116, final);
        BackBegun(s, s0, final);
      } else if b == 110 {
        BackLiteral(s0, 3, Null, false, final);
        BackBegun(s, s0, final);
      } else if b == 123 {
        BackOpened(json, s, s0, Object, o.s, final);
      } else if b == 91 {
        BackOpened(json, s, s0.(flags := s0.flags.(seekValue := true)), Array, o.s, final);
      } else if b == 34 {
        BackOpened(json, s, s0.(flags := s0.flags.(inString := true), stringLength := 0), Str, o.s, final);
      } else {
        BackOpened(json, s, s0, Integer, o.s, final);
      }
    }
  }

  lemma BackBegun(s: State, s': State, final: seq<Node>)
    requires s.flags.seekValue && !s.flags.inString && !s'.flags.inString && s'.nodes == s.nodes && s'.top == s.top
    requires HasTop(s) ==> Holds(Top(s).kind) && |s.nodes| <= |final| && Top(s).length < final[s.top].length
    requires Counted(s', final)
    ensures Counted(s, final)
  {
  }

  lemma BackOpened(json: Text, s: State, s0: State, kind: Kind, s': State, final: seq<Node>)
    requires WF(json, s) && s.flags.seekValue && s0.nodes == s.nodes && s0.top == s.top
    requires s'.nodes == NewValue(true, s0, kind).s.nodes && s'.top == |s.nodes| && Counted(s', final)
    ensures Counted(s, final)
  {
    var n := |s.nodes|;
    assert s'.nodes[..n] == s.nodes && s'.nodes[n].parent == s.top;
    if HasTop(s) {
      ChainSame(s.nodes, s'.nodes, final, s.top);
    }
    forall i | 0 <= i < n
      ensures Grown(s.nodes[i], final[i], false, false)
    {
      assert s'.nodes[i] == s.nodes[i];
      assert Grown(s'.nodes[i], final[i], s'.flags.inString && i == s'.top, InNumber(s') && i == s'.top);
    }
  }

  lemma BackLiteral(s: State, n: nat, kind: Kind, value: bool, final: seq<Node>)
    requires Tree(s.nodes) && Quiet(s) && NIL <= s.top < |s.nodes| && (HasTop(s) ==> Holds(Top(s).kind)) &&
             !Holds(kind) && kind != Str
    ensures var o := Literal(true, s, n, kind, value);
            o.More? && Counted(o.s, final) ==>
              Counted(s, final) && |s.nodes| <= |final| && (HasTop(s) ==> Top(s).length < final[s.top].length)
  {
    hide Next, Counted, Tree, ChainRoom;
    var o := Literal(true, s, n, kind, value);
    if o.More? && Counted(o.s, final) {
      TreeNew(s, kind);
      var s1 := NewValue(true, s, kind).s;
      var s2 := WithTop(s1, Top(s1).(boolean := value)).(ptr := s.ptr + n);
      TreeUpdate(s1, Top(s1).(boolean := value));
      BackNext(s2, false, final);
      CountedTop(s2, final);
      BackTop(s1, s2, final);
      BackNew(s, kind, final);
    }
  }

  lemma BackObject(s: State, b: Byte, final: seq<Node>)
    requires Tree(s.nodes) && HasTop(s) && Quiet(s) && Top(s).kind == Object
    ensures Back(s, ObjectStep(true, s, b), final)
  {
    hide Next, Tree, ChainRoom;
    var s' := s.(flags := s.flags.(needComma := false));
    BackNext(s', false, final);
  }

  lemma BackNumber(s: State, b: Byte, final: seq<Node>)
    requires Tree(s.nodes) && HasTop(s) && Quiet(s) && IsNumber(Top(s).kind)
    ensures Back(s, NumberStep(s, b), final)
  {
    hide Next, Counted, ChainRoom, NumberChar, Tree, Signed;
    var o, n := NumberStep(s, b), Signed(Top(s), s.num);
    NumberGoes(Top(s), s.num, b);
    SignedSame(Top(s), s.num);
    if o.More? && Counted(o.s, final) {
      if NumberChar(Top(s), s.num, b) == End {
        var s' := WithTop(s, n);
        TreeTop(s);
        TreeUpdate(s, n);
        BackNext(s', true, final);
        CountedTop(s', final);
        BackTop(s, s', final);
      } else {
        CountedTop(o.s, final);
        BackTop(s, o.s, final);
      }
    }
  }

  lemma StepBack(json: Text, s: State, final: seq<Node>)
    requires WF(json, s)
    ensures Back(s, Step(json, true, s), final)
  {
    hide StringStep, SeekStep, ObjectStep, NumberStep, Counted;
    if s.flags.inString {
      BackString(json, s, final);
    } else if s.flags.done {
      var o := Step(json, true, s);
      if o.More? {
        BackSame(s, o.s, final);
      }
    } else if s.flags.seekValue {
      BackSeek(json, s, final);
    } else if Top(s).kind == Object {
      BackObject(s, ByteAt(json, s.ptr), final);
    } else {
      BackNumber(s, ByteAt(json, s.ptr), final);
    }
  }

  /** From every state of an accepted first pass on, the counts only grow to what they are in the end. */
  lemma {:induction false} RunCounts(json: Text, s: State)
    requires WF(json, s) && Run(json, true, s).Accepted?
    ensures Counted(s, Run(json, true, s).s.nodes)
    decreases Measure(json, s)
  {
    hide Step, Measure, WF, Counted;
    StepSound(json, s);
    match Step(json, true, s)
    case More(s') =>
      RunCounts(json, s');
      StepBack(json, s, Run(json, true, s).s.nodes);
    case Finished(_) => EndCounts(json, s);
  }

  lemma EndCounts(json: Text, s: State)
    requires WF(json, s) && s.flags.done
    ensures Counted(s, s.nodes)
  {
  }
}

/**
 The second pass follows the first: at every value boundary both are at the same
 place of the text, in the same state, and everything counted so far is filled in.
 */
module JsonSecondPass {
  import opened Bytes
  import opened Json
  import opened JsonFirstPass
  import opened JsonCounts

  // ----- Numbers -----

  /** After a number no character can follow that looks like part of one. */
  lemma NumberEnds(json: Text, s: State, s': State)
    requires WF(json, s) && Quiet(s) && IsNumber(Top(s).kind) && Next(true, s, true) == More(s')
    requires NumChar(ByteAt(json, s.ptr))
    ensures Step(json, true, s') == Failed
  {
    hide Tree;
    TreeTop(s);
    NextHolds(s);
  }

  lemma NextHolds(s: State)
    requires Tree(s.nodes) && HasTop(s)
    ensures var o := Next(true, s, true); o.More? && !o.s.flags.done ==> HasTop(o.s) && Holds(Top(o.s).kind)
  {
  }

  /** The digits, dots and exponents of the first pass, and the skipping of the second, end in one place. */
  lemma {:induction false} NumberSkip(json: Text, s: State) returns (n: Node, num: Num, s': State)
    requires WF(json, s) && Quiet(s) && IsNumber(Top(s).kind) && Run(json, true, s).Accepted?
    ensures IsNumber(n.kind) && n == Top(s).(kind := n.kind, integer := n.integer)
    ensures Next(true, WithTop(s, n).(ptr := SkipNumber(json, s.ptr), num := num), true) == More(s')
    ensures WF(json, s') && Measure(json, s') < Measure(json, s) && Run(json, true, s') == Run(json, true, s)
    decreases Measure(json, s)
  {
    hide Next, Measure, SkipNumber, Tree, NumberChar, Signed;
    StepSound(json, s);
    NumberCases(json, s);
    var t := NumberStep(s, ByteAt(json, s.ptr)).s;
    if InNumber(t) {
      n, num, s' := NumberSkip(json, t);
      SkipOne(json, s.ptr);
      assert WithTop(t, n).(ptr := SkipNumber(json, t.ptr), num := num)
          == WithTop(s, n).(ptr := SkipNumber(json, s.ptr), num := num);
    } else {
      n := Signed(Top(s), s.num);
      SignedSame(Top(s), s.num);
      num, s' := s.num, t;
      var e := WithTop(s, n);
      TreeTop(s);
      TreeUpdate(s, n);
      if NumChar(ByteAt(json, s.ptr)) {
        NumberEnds(json, e, t);
        assert false;
      }
      SkipOne(json, s.ptr);
    }
  }

  lemma SkipOne(json: Text, p: int)
    requires 0 <= p <= |json|
    ensures NumChar(ByteAt(json, p)) ==> p < |json| && SkipNumber(json, p) == SkipNumber(json, p + 1)
    ensures !NumChar(ByteAt(json, p)) ==> SkipNumber(json, p) == p
  {
  }

  lemma NumberCases(json: Text, s: State)
    requires WF(json, s) && Quiet(s) && IsNumber(Top(s).kind)
    ensures var b := ByteAt(json, s.ptr); var o := NumberStep(s, b);
            o.More? ==>
              if InNumber(o.s) then
                && Quiet(o.s) && (o.s.ptr == s.ptr || (o.s.ptr == s.ptr + 1 && NumChar(b)))
                && HasTop(o.s) && o.s == WithTop(s, Top(o.s)).(ptr := o.s.ptr, num := o.s.num)
                && Top(o.s) == Top(s).(kind := Top(o.s).kind, integer := Top(o.s).integer)
              else
                o == Next(true, WithTop(s, Signed(Top(s), s.num)), true)
  {
    hide Tree, NumberChar, Signed, Next;
    TreeTop(s);
    NumberGoes(Top(s), s.num, ByteAt(json, s.ptr));
    SignedSame(Top(s), s.num);
    NotNumberAfter(json, WithTop(s, Signed(Top(s), s.num)));
  }

  lemma NotNumberAfter(json: Text, s: State)
    requires HasTop(s)
    ensures var o := Next(true, s, true);
            o.More? && (0 <= Top(s).parent < |s.nodes| ==> Holds(s.nodes[Top(s).parent].kind)) ==> !InNumber(o.s)
  {
  }

  // ----- Both passes at one place -----

  predicate AllFull<T>(cells: seq<Cell<T>>, n: int) {
    n <= |cells| && forall j | 0 <= j < n :: cells[j].Full?
  }

  /** Member `k` of an object has its name: a stretch of the used key area with a NUL behind it. */
  predicate Named(n: Node, k: int) {
    0 <= k < |n.slots| &&
    var m := n.slots[k];
    0 <= m.nameAt && 0 <= m.nameLength && m.nameAt + m.nameLength < n.objectMem
    && n.objectMem <= |n.buffer| && n.buffer[m.nameAt + m.nameLength] == Full(0)
  }

  /**
   Value `n` of the second pass has received what value `a` of the first has counted
   so far, out of `f`; `w` is the length of the string being written, or NIL.
   */
  ghost predicate NodeSim(a: Node, n: Node, f: Node, w: int) {
    && a.kind == n.kind == f.kind && a.parent == n.parent == f.parent && n.keyBytes == f.keyBytes
    && match f.kind
       case Array =>
         |n.slots| == f.length && n.length == a.length && forall k | 0 <= k < a.length ::
             k < |n.slots| && n.slots[k].value != NIL
       case Object =>
         && |n.slots| == f.length && n.length == a.length && n.objectMem == a.keyBytes
         && |n.buffer| == (if f.length == 0 then 0 else f.keyBytes)
         && AllFull(n.buffer, a.keyBytes + if w == NIL then 0 else w)
         && forall k | 0 <= k < a.length :: Named(n, k) && n.slots[k].value != NIL
       case Str =>
         |n.buffer| == f.length + 1 && (if w == NIL then AllFull(n.buffer, |n.buffer|) && n.length == f.length
             else AllFull(n.buffer, w))
       case _ => true
  }

  ghost predicate NodesSim(a: seq<Node>, n: seq<Node>, f: seq<Node>, top: int, w: int) {
    && |a| <= |f| && |n| == |f|
    && (forall i | 0 <= i < |a| :: NodeSim(a[i], n[i], f[i], if i == top then w else NIL))
    && forall i | |a| <= i < |f| :: n[i] == f[i]
  }

  /** Around a member being read, every object has its name already. */
  ghost predicate ChainNamed(nodes: seq<Node>, t: int)
    decreases t
  {
    0 <= t < |nodes| ==>
      var p := nodes[t].parent;
      0 <= p ==> p < t && (nodes[p].kind == Object ==> Named(nodes[p], nodes[p].length)) && ChainNamed(nodes, p)
  }

  lemma ChainNamedSame(a: seq<Node>, b: seq<Node>, t: int)
    requires 0 <= t < |a| && t < |b| && a[t].parent == b[t].parent && forall i | 0 <= i < t :: a[i] == b[i]
    ensures ChainNamed(a, t) <==> ChainNamed(b, t)
    decreases t
  {
    hide Named;
    var p := a[t].parent;
    if 0 <= p < t {
      ChainNamedSame(a, b, p);
    }
  }

  predicate TopNamed(s: State) {
    s.flags.seekValue && !s.flags.needComma && !s.flags.inString && HasTop(s) && Top(s).kind == Object ==>
        Named(Top(s), Top(s).length)
  }

  ghost predicate Control(s1: State, s2: State, f: seq<Node>) {
    && s2.ptr == s1.ptr && s2.flags == s1.flags && s2.stringLength == s1.stringLength && s2.top == s1.top &&
          s2.root == s1.root
    && s2.alloc == if |s1.nodes| < |f| then |s1.nodes| else NIL
  }

  function Writing(s: State): int {
    if s.flags.inString then s.stringLength else NIL
  }

  ghost predicate Sim(s1: State, s2: State, f: seq<Node>) {
    && Control(s1, s2, f) && NodesSim(s1.nodes, s2.nodes, f, s1.top, Writing(s1))
    && ChainNamed(s2.nodes, s2.top) && TopNamed(s2) && !InNumber(s1)
  }

  lemma SimTop(s1: State, s2: State, f: seq<Node>)
    requires NodesSim(s1.nodes, s2.nodes, f, s1.top, Writing(s1)) && HasTop(s1) && s2.top == s1.top
    ensures HasTop(s2) && s1.top < |f| && NodeSim(Top(s1), Top(s2), f[s1.top], Writing(s1))
  {
    assert NodeSim(s1.nodes[s1.top], s2.nodes[s1.top], f[s1.top], if s1.top == s1.top then Writing(s1) else NIL);
  }

  /** Replacing the values on top. */
  lemma NodesTop(a: seq<Node>, n: seq<Node>, f: seq<Node>, top: int, w: int, x: Node, y: Node, w': int)
    requires NodesSim(a, n, f, top, w) && 0 <= top < |a| && NodeSim(x, y, f[top], w')
    ensures NodesSim(a[top := x], n[top := y], f, top, w')
  {
    hide NodeSim;
    forall i | 0 <= i < |a|
      ensures NodeSim(a[top := x][i], n[top := y][i], f[i], if i == top then w' else NIL)
    {
      assert NodeSim(a[i], n[i], f[i], if i == top then w else NIL);
    }
  }

  lemma NodesQuiet(a: seq<Node>, n: seq<Node>, f: seq<Node>, top: int, top': int)
    requires NodesSim(a, n, f, top, NIL)
    ensures NodesSim(a, n, f, top', NIL)
  {
    hide NodeSim;
    forall i | 0 <= i < |a|
      ensures NodeSim(a[i], n[i], f[i], if i == top' then NIL else NIL)
    {
      assert NodeSim(a[i], n[i], f[i], if i == top then NIL else NIL);
    }
  }

  /** Strings that have ended are not written to again. */
  ghost predicate Kept(s1: State, s2: State, t2: State) {
    |t2.nodes| == |s2.nodes| &&
    forall i | 0 <= i < |s1.nodes| && i < |s2.nodes| && s1.nodes[i].kind == Str &&
        !(s1.flags.inString && i == s1.top) ::
      t2.nodes[i] == s2.nodes[i]
  }

  // ----- Strings -----

  /** The bytes of a string are written one by one, and each finds its cell. */
  lemma {:induction false} AddSim(s1: State, s2: State, f: seq<Node>, bytes: seq<Byte>) returns (t2: State)
    requires HasTop(s1) && s1.flags.inString && (Top(s1).kind == Str || Top(s1).kind == Object)
    requires NodesSim(s1.nodes, s2.nodes, f, s1.top, s1.stringLength) && s2.top == s1.top &&
             s2.stringLength == s1.stringLength
    requires ChainNamed(s2.nodes, s2.top)
    requires Top(s1).kind == Str ==> s1.stringLength + |bytes| <= f[s1.top].length
    requires Top(s1).kind == Object ==>
               0 < f[s1.top].length && Top(s1).keyBytes + s1.stringLength + |bytes| <= f[s1.top].keyBytes
    ensures Add(false, s2, bytes) == More(t2) && t2.stringLength == s1.stringLength + |bytes|
    ensures HasTop(s2) && HasTop(t2) && t2 == WithTop(s2, Top(t2)).(stringLength := t2.stringLength)
    ensures Top(t2) == Top(s2).(buffer := Stored(Top(s2).buffer, StringBase(Top(s2)) + s2.stringLength, bytes))
    ensures NodesSim(s1.nodes, t2.nodes, f, s1.top, t2.stringLength) && ChainNamed(t2.nodes, t2.top)
    decreases |bytes|
  {
    hide NodesSim, ChainNamed, NodeSim;
    SimTop(s1, s2, f);
    if bytes == [] {
      t2 := s2;
      assert WithTop(s2, Top(s2)) == s2;
    } else {
      var u2 := WriteSim(s1, s2, f, bytes[0]);
      t2 := AddSim(s1.(stringLength := s1.stringLength + 1), u2.(stringLength := s2.stringLength + 1), f, bytes[1..]);
    }
  }

  /** The cells with `bytes` in them from `at` on. */
  function Stored(cells: seq<Cell<Byte>>, at: nat, bytes: seq<Byte>): seq<Cell<Byte>>
    decreases |bytes|
  {
    if bytes == [] || at >= |cells| then cells else Stored(cells[at := Full(bytes[0])], at + 1, bytes[1..])
  }

  lemma WriteSim(s1: State, s2: State, f: seq<Node>, b: Byte) returns (t2: State)
    requires HasTop(s1) && s1.flags.inString && (Top(s1).kind == Str || Top(s1).kind == Object)
    requires NodesSim(s1.nodes, s2.nodes, f, s1.top, s1.stringLength) && s2.top == s1.top &&
             s2.stringLength == s1.stringLength
    requires ChainNamed(s2.nodes, s2.top)
    requires Top(s1).kind == Str ==> s1.stringLength <= f[s1.top].length
    requires Top(s1).kind == Object ==> 0 < f[s1.top].length && Top(s1).keyBytes + s1.stringLength < f[s1.top].keyBytes
    ensures Write(s2, b) == More(t2) && HasTop(s2) && HasTop(t2) && t2 == WithTop(s2, Top(t2))
    ensures var at := StringBase(Top(s2)) + s2.stringLength;
            at < |Top(s2).buffer| && Top(t2) == Top(s2).(buffer := Top(s2).buffer[at := Full(b)])
    ensures NodesSim(s1.nodes, t2.nodes, f, s1.top, s1.stringLength + 1) && ChainNamed(t2.nodes, t2.top)
  {
    hide NodesSim, ChainNamed;
    SimTop(s1, s2, f);
    var n := Top(s2);
    var at := StringBase(n) + s2.stringLength;
    var n' := n.(buffer := n.buffer[at := Full(b)]);
    t2 := WithTop(s2, n');
    CellSim(Top(s1), n, f[s1.top], s1.stringLength, b);
    NodesTop(s1.nodes, s2.nodes, f, s1.top, s1.stringLength, Top(s1), n', s1.stringLength + 1);
    assert s1.nodes[s1.top := Top(s1)] == s1.nodes;
    ChainNamedSame(s2.nodes, t2.nodes, s2.top);
  }

  lemma CellSim(a: Node, n: Node, f: Node, w: nat, b: Byte)
    requires NodeSim(a, n, f, w) && (a.kind == Str || a.kind == Object)
    requires a.kind == Str ==> w <= f.length
    requires a.kind == Object ==> 0 < f.length && a.keyBytes + w < f.keyBytes
    ensures var at := StringBase(n) + w; at < |n.buffer| && NodeSim(a, n.(buffer := n.buffer[at := Full(b)]), f, w + 1)
  {
    var at := StringBase(n) + w;
    var n' := n.(buffer := n.buffer[at := Full(b)]);
    if a.kind == Object {
      assert forall k | 0 <= k < a.length :: Named(n, k) ==> Named(n', k);
    }
  }

  // ----- Values begin and end -----

  /** At the end of a value both passes add it to the value around it; the second finds a slot for it. */
  lemma NextSim(s1: State, s2: State, f: seq<Node>, reproc: bool, t1: State) returns (t2: State)
    requires Tree(s1.nodes) && HasTop(s1) && Quiet(s1) && Control(s1, s2, f)
    requires NodesSim(s1.nodes, s2.nodes, f, s1.top, NIL) && ChainNamed(s2.nodes, s2.top)
    requires Next(true, s1, reproc) == More(t1) && Counted(t1, f)
    ensures Next(false, s2, reproc) == More(t2) && Sim(t1, t2, f) && Kept(s1, s2, t2)
  {
    hide Named, ChainNamed, NodesSim, NodeSim, Tree, Counted, Grown;
    SimTop(s1, s2, f);
    SameParent(Top(s1), Top(s2), f[s1.top]);
    if Top(s1).parent == NIL {
      t2 := Next(false, s2, reproc).s;
    } else {
      t2 := NextInto(s1, s2, f, reproc, t1);
    }
  }

  /** The value is one of another. */
  lemma NextInto(s1: State, s2: State, f: seq<Node>, reproc: bool, t1: State) returns (t2: State)
    requires Tree(s1.nodes) && HasTop(s1) && Quiet(s1) && Control(s1, s2, f) && Top(s1).parent != NIL
    requires NodesSim(s1.nodes, s2.nodes, f, s1.top, NIL) && ChainNamed(s2.nodes, s2.top)
    requires HasTop(s2) && Top(s2).parent == Top(s1).parent
    requires Next(true, s1, reproc) == More(t1) && Counted(t1, f)
    ensures Next(false, s2, reproc) == More(t2) && Sim(t1, t2, f) && Kept(s1, s2, t2)
  {
    hide Named, ChainNamed, NodesSim, NodeSim, Tree, Counted, Grown;
    TreeTop(s1);
    CountedTop(t1, f);
    var p := Top(s1).parent;
    GrownLength(Top(t1), f[p], t1.flags.inString, InNumber(t1));
    var n1, n2 := s1.nodes[p], s2.nodes[p];
    NodesQuiet(s1.nodes, s2.nodes, f, s1.top, p);
    SimTop(s1.(top := p), s2.(top := p), f);
    ChainNamedHere(s2.nodes, s2.top);
    SlotSim(n1, n2, f[p], s1.top);
    var n2' := n2.(slots := n2.slots[n2.length := n2.slots[n2.length].(value := s1.top)], length := n2.length + 1);
    NodesTop(s1.nodes, s2.nodes, f, p, NIL, n1.(length := n1.length + 1), n2', NIL);
    t2 := Next(false, s2, reproc).s;
    assert t2.nodes == s2.nodes[p := n2'];
    ChainNamedSame(s2.nodes, t2.nodes, p);
  }

  lemma SameParent(a: Node, n: Node, f: Node)
    requires NodeSim(a, n, f, NIL)
    ensures a.parent == n.parent == f.parent && a.kind == n.kind
  {
  }

  lemma GrownLength(a: Node, f: Node, open: bool, num: bool)
    requires Grown(a, f, open, num)
    ensures a.length <= f.length
  {
  }

  lemma ChainNamedHere(nodes: seq<Node>, t: int)
    requires ChainNamed(nodes, t) && 0 <= t < |nodes| && nodes[t].parent >= 0
    ensures var p := nodes[t].parent;
            p < |nodes| && ChainNamed(nodes, p) && (nodes[p].kind == Object ==> Named(nodes[p], nodes[p].length))
  {
  }

  lemma SlotSim(a: Node, n: Node, f: Node, value: int)
    requires NodeSim(a, n, f, NIL) && Holds(a.kind) && a.length < f.length && value >= 0
    requires n.kind == Object ==> Named(n, n.length)
    ensures n.length == a.length < |n.slots|
    ensures NodeSim(a.(length := a.length + 1),
                    n.(slots := n.slots[n.length := n.slots[n.length].(value := value)], length := n.length + 1),
                    f, NIL)
  {
    var n' := n.(slots := n.slots[n.length := n.slots[n.length].(value := value)], length := n.length + 1);
    assert forall k | 0 <= k <= a.length :: Named(n, k) ==> Named(n', k);
  }

  /** A value of the list is taken where the first pass has made it, and gets all its cells. */
  lemma NewSim(s1: State, s2: State, f: seq<Node>, kind: Kind, x: Node) returns (t2: State)
    requires Tree(f) && NIL <= s1.top < |s1.nodes| < |f| && Control(s1, s2, f)
    requires NodesSim(s1.nodes, s2.nodes, f, s1.top, NIL) && ChainNamed(s2.nodes, s2.top)
    requires HasTop(s2) && Top(s2).kind == Object ==> Named(Top(s2), Top(s2).length)
    requires var g := f[|s1.nodes|]; x.kind == g.kind && x.parent == s1.top == g.parent && x.length == x.keyBytes == 0
    ensures NewValue(false, s2, kind) == More(t2) && HasTop(t2) && t2.top == |s1.nodes| && ChainNamed(t2.nodes, t2.top)
    ensures NodesSim(s1.nodes + [x], t2.nodes, f, t2.top, if x.kind == Str then 0 else NIL)
    ensures |t2.nodes| == |s2.nodes| && forall j | 0 <= j < |s1.nodes| && j < |s2.nodes| :: t2.nodes[j] == s2.nodes[j]
    ensures t2 == s2.(nodes := t2.nodes, root := if s1.root == NIL then t2.top else s1.root, top := t2.top,
                      alloc := if |s1.nodes| + 1 < |f| then |s1.nodes| + 1 else NIL)
  {
    hide Named, ChainNamed, NodeSim, Allocated;
    var i := |s1.nodes|;
    assert s2.nodes[i] == f[i];
    t2 := NewValue(false, s2, kind).s;
    NewNodeSim(x, f[i]);
    forall j | 0 <= j <= i
      ensures NodeSim((s1.nodes + [x])[j], t2.nodes[j], f[j], if j == i && x.kind == Str then 0 else NIL)
    {
      if j < i {
        assert NodeSim(s1.nodes[j], s2.nodes[j], f[j], if j == s1.top then NIL else NIL);
      }
    }
    NewChain(s2, t2);
  }

  lemma NewNodeSim(x: Node, g: Node)
    requires Raw(g) && x.kind == g.kind && x.parent == g.parent && x.length == x.keyBytes == 0
    ensures NodeSim(x, Allocated(g), g, if x.kind == Str then 0 else NIL) && Allocated(g).parent == g.parent
  {
  }

  lemma NewChain(s2: State, t2: State)
    requires NIL <= s2.top < t2.top < |t2.nodes| == |s2.nodes| && Top(t2).parent == s2.top
    requires forall i | 0 <= i < t2.top :: t2.nodes[i] == s2.nodes[i]
    requires ChainNamed(s2.nodes, s2.top) && (HasTop(s2) && Top(s2).kind == Object ==> Named(Top(s2), Top(s2).length))
    ensures ChainNamed(t2.nodes, t2.top)
  {
    if s2.top >= 0 {
      ChainNamedSame(s2.nodes, t2.nodes, s2.top);
    }
  }

  // ----- What a string says -----

  datatype Piece = Piece(bytes: seq<Byte>, next: int, escaped: bool) | Quote | Nothing

  /** One character of a string, or one escape. */
  function NextPiece(json: Text, p: int, escaped: bool): Piece {
    var b := ByteAt(json, p);
    if b == 0 then Nothing
    else if escaped then
      if b == 117 then
        match UnicodeEscape(json, p)
        case Invalid => Nothing
        case Decoded(q, bytes) => Piece(bytes, q + 1, false)
      else Piece([Unescaped(b)], p + 1, false)
    else if b == 92 then Piece([], p + 1, true)
    else if b == 34 then Quote
    else Piece([b], p + 1, false)
  }

  datatype Meaning = Meaning(bytes: seq<Byte>, end: int) | NoMeaning

  /** The bytes that the text from `p` to the closing quote stands for. */
  function Decode(json: Text, p: int, escaped: bool): Meaning
    decreases |json| - p
  {
    EscapeInside(json, p);
    match NextPiece(json, p, escaped)
    case Nothing => NoMeaning
    case Quote => Meaning([], p)
    case Piece(bytes, next, escaped') =>
      if p >= |json| then NoMeaning
      else
        match Decode(json, next, escaped')
        case NoMeaning => NoMeaning
        case Meaning(rest, end) => Meaning(bytes + rest, end)
  }

  /** How both passes move over a piece of a string. */
  predicate Follows(s1: State, s2: State, t1: State, t2: State, p: Piece) {
    HasTop(s2) &&
    match p
    case Nothing => false
    case Piece(bytes, next, escaped) =>
      && t1.flags.inString && t1.flags.escaped == escaped && t1.ptr == next && t1.top == s1.top && t1.nodes == s1.nodes
      && t1.stringLength == s1.stringLength + |bytes| && s2.top < |t2.nodes|
      && t2.nodes[s2.top] == Top(s2).(buffer := Stored(Top(s2).buffer, StringBase(Top(s2)) + s2.stringLength, bytes))
    case Quote =>
      Top(s2).kind == Str ==>
        && !t1.flags.inString && s2.top < |t2.nodes| && s2.stringLength < |Top(s2).buffer|
        && |s1.nodes| <= |t1.nodes| && 0 <= s1.top < |s1.nodes| && t1.nodes[s1.top].kind == Str
        && t2.nodes[s2.top] == Top(s2).(buffer := Top(s2).buffer[s2.stringLength := Full(0)], length := s2.stringLength)
  }

  lemma EndSim(json: Text, s1: State, s2: State, f: seq<Node>, t1: State) returns (t2: State)
    requires WF(json, s1) && Sim(s1, s2, f) && Counted(s1, f) && s1.flags.inString && !s1.flags.escaped
    requires EndString(true, s1) == More(t1) && Counted(t1, f)
    ensures EndString(false, s2) == More(t2) && Sim(t1, t2, f) && Kept(s1, s2, t2)
    ensures Follows(s1, s2, t1, t2, Quote)
  {
    hide Next, NodesSim, NodeSim, ChainNamed, Tree, Grown, Named;
    var a, w := Top(s1), s1.stringLength;
    var u2 := WriteSim(s1, s2, f, 0);
    SimTop(s1, s2, f);
    CountedTop(s1, f);
    KindSim(a, Top(s2), f[s1.top], w);
    if a.kind == Str {
      t2 := EndText(json, s1, s2, u2, f, t1);
      EndFirst(json, s1, t1);
    } else {
      t2 := EndName(s1, s2, u2, f);
    }
  }

  lemma EndText(json: Text, s1: State, s2: State, u2: State, f: seq<Node>, t1: State) returns (t2: State)
    requires WF(json, s1) && Sim(s1, s2, f) && Counted(s1, f) && s1.flags.inString && !s1.flags.escaped
    requires Top(s1).kind == Str && EndString(true, s1) == More(t1) && Counted(t1, f)
    requires Write(s2, 0) == More(u2) && HasTop(s2) && HasTop(u2) && u2 == WithTop(s2, Top(u2))
    requires NodesSim(s1.nodes, u2.nodes, f, s1.top, s1.stringLength + 1) && ChainNamed(u2.nodes, u2.top)
    ensures EndString(false, s2) == More(t2) && Sim(t1, t2, f) && Kept(s1, s2, t2)
    ensures HasTop(s1) && s1.top < |t2.nodes| && t2.nodes[s1.top] == Top(u2).(length := s1.stringLength)
  {
    hide Next, NodesSim, NodeSim, ChainNamed, Tree, Grown, Named, Write;
    var a, w := Top(s1), s1.stringLength;
    SimTop(s1.(stringLength := w + 1), u2, f);
    var v1, v2 := s1.(flags := s1.flags.(inString := false)), u2.(flags := s2.flags.(inString := false));
    var x1, x2 := WithTop(v1, a.(length := w)), WithTop(v2, Top(u2).(length := w));
    ClosedLength(s1, x1, t1, f);
    ClosedSim(a, Top(u2), f[s1.top], w);
    NodesTop(s1.nodes, u2.nodes, f, s1.top, w + 1, Top(x1), Top(x2), NIL);
    ChainNamedSame(u2.nodes, x2.nodes, s2.top);
    TreeTop(s1);
    TreeUpdate(v1, a.(length := w));
    t2 := NextSim(x1, x2, f, false, t1);
    KindSim(a, Top(u2), f[s1.top], w + 1);
  }

  lemma EndName(s1: State, s2: State, u2: State, f: seq<Node>) returns (t2: State)
    requires Sim(s1, s2, f) && Counted(s1, f) && s1.flags.inString && HasTop(s1) && Top(s1).kind == Object
    requires Write(s2, 0) == More(u2) && HasTop(s2) && HasTop(u2) && u2 == WithTop(s2, Top(u2)) &&
             Top(u2) == Top(s2).(buffer := Top(u2).buffer)
    requires Top(s2).objectMem + s1.stringLength < |Top(u2).buffer| &&
             Top(u2).buffer[Top(s2).objectMem + s1.stringLength] == Full(0)
    requires NodesSim(s1.nodes, u2.nodes, f, s1.top, s1.stringLength + 1) && ChainNamed(u2.nodes, u2.top)
    ensures EndString(false, s2) == More(t2) && Sim(EndString(true, s1).s, t2, f) && Kept(s1, s2, t2)
  {
    hide Next, NodesSim, NodeSim, ChainNamed, Tree, Grown, Named, Write, InNumber;
    var a, w := Top(s1), s1.stringLength;
    SimTop(s1.(stringLength := w + 1), u2, f);
    CountedTop(s1, f);
    NameSim(a, Top(s2), Top(u2), f[s1.top], w);
    var n := Top(u2);
    var n' := n.(slots := n.slots[n.length := n.slots[n.length].(nameAt := n.objectMem, nameLength := w)],
                 objectMem := n.objectMem + w + 1);
    var v2 := u2.(flags := s2.flags.(inString := false, seekValue := true, needColon := true));
    t2 := On(WithTop(v2, n'));
    NodesTop(s1.nodes, u2.nodes, f, s1.top, w + 1, a.(keyBytes := a.keyBytes + w + 1), n', NIL);
    ChainNamedSame(u2.nodes, t2.nodes, s2.top);
    NotNumber(EndString(true, s1).s);
  }

  lemma NotNumber(s: State)
    requires s.flags.seekValue
    ensures !InNumber(s)
  {
  }

  lemma EndFirst(json: Text, s1: State, t1: State)
    requires WF(json, s1) && s1.flags.inString && Top(s1).kind == Str && EndString(true, s1) == More(t1)
    ensures !t1.flags.inString && |t1.nodes| == |s1.nodes| && t1.nodes[s1.top].kind == Str
  {
  }

  lemma KindSim(a: Node, n: Node, f: Node, w: int)
    requires NodeSim(a, n, f, w)
    ensures n.kind == a.kind
  {
  }

  /** A string that has ended is as long as the first pass said. */
  lemma ClosedLength(s1: State, x1: State, t1: State, f: seq<Node>)
    requires HasTop(s1) && Top(s1).kind == Str &&
             x1 == WithTop(s1.(flags := s1.flags.(inString := false)), Top(s1).(length := s1.stringLength))
    requires Tree(s1.nodes) && Next(true, x1, false) == More(t1) && Counted(t1, f)
    ensures s1.top < |f| && f[s1.top].length == s1.stringLength
  {
    var i := s1.top;
    assert Grown(t1.nodes[i], f[i], t1.flags.inString && i == t1.top, InNumber(t1) && i == t1.top);
  }

  lemma ClosedSim(a: Node, n: Node, f: Node, w: nat)
    requires NodeSim(a, n, f, w + 1) && a.kind == Str && f.length == w
    ensures NodeSim(a.(length := w), n.(length := w), f, NIL)
  {
  }

  lemma NameSim(a: Node, n0: Node, n: Node, f: Node, w: nat)
    requires NodeSim(a, n, f, w + 1) && a.kind == Object && a.length < f.length
    requires n == n0.(buffer := n.buffer)
    requires n0.objectMem + w < |n.buffer| && n.buffer[n0.objectMem + w] == Full(0)
    ensures n.kind == Object && n.length < |n.slots|
    ensures var n' := n.(slots := n.slots[n.length := n.slots[n.length].(nameAt := n.objectMem, nameLength := w)],
                         objectMem := n.objectMem + w + 1);
            NodeSim(a.(keyBytes := a.keyBytes + w + 1), n', f, NIL) && Named(n', n'.length)
  {
    var n' := n.(slots := n.slots[n.length := n.slots[n.length].(nameAt := n.objectMem, nameLength := w)],
                 objectMem := n.objectMem + w + 1);
    assert forall k | 0 <= k < a.length :: Named(n, k) ==> Named(n', k);
  }

  lemma StringSim(json: Text, s1: State, s2: State, f: seq<Node>, t1: State) returns (t2: State)
    requires WF(json, s1) && Sim(s1, s2, f) && Counted(s1, f) && s1.flags.inString
    requires StringStep(json, true, s1, ByteAt(json, s1.ptr)) == More(t1) && Counted(t1, f)
    ensures StringStep(json, false, s2, ByteAt(json, s2.ptr)) == More(t2) && Sim(t1, t2, f) && Kept(s1, s2, t2)
    ensures Follows(s1, s2, t1, t2, NextPiece(json, s1.ptr, s1.flags.escaped))
  {
    hide Add, UnicodeEscape, EndString, NodesSim, ChainNamed, Tree, Grown, Named, Counted, Unescaped;
    SimTop(s1, s2, f);
    var b := ByteAt(json, s1.ptr);
    var unescaped := s1.flags.(escaped := false);
    if b != 34 || s1.flags.escaped {
      StillInString(json, s1, t1);
      CountedTop(t1, f);
    }
    if s1.flags.escaped {
      if b == 117 {
        var e := UnicodeEscape(json, s1.ptr);
        AddSound(s1.(flags := unescaped, ptr := e.ptr), e.bytes);
        var u2 := AddSim(s1.(flags := unescaped, ptr := e.ptr), s2.(flags := unescaped, ptr := e.ptr), f, e.bytes);
        t2 := On(u2);
      } else {
        var c := Unescaped(b);
        AddSound(s1.(flags := unescaped), [c]);
        var u2 := AddSim(s1.(flags := unescaped), s2.(flags := unescaped), f, [c]);
        t2 := On(u2);
      }
    } else if b == 92 {
      t2 := On(s2.(flags := s2.flags.(escaped := true)));
    } else if b == 34 {
      t2 := EndSim(json, s1, s2, f, t1);
    } else {
      AddSound(s1, [b]);
      var u2 := AddSim(s1, s2, f, [b]);
      t2 := On(u2);
    }
  }

  lemma StillInString(json: Text, s1: State, t1: State)
    requires WF(json, s1) && s1.flags.inString && (s1.flags.escaped || ByteAt(json, s1.ptr) != 34)
    requires StringStep(json, true, s1, ByteAt(json, s1.ptr)) == More(t1)
    ensures t1.flags.inString && t1.top == s1.top && t1.nodes == s1.nodes
  {
    hide Add, UnicodeEscape, EndString, Tree, Unescaped;
    var b := ByteAt(json, s1.ptr);
    var s' := s1.(flags := s1.flags.(escaped := false));
    if !s1.flags.escaped {
      AddSound(s1, [b]);
    } else if b == 117 {
      var e := UnicodeEscape(json, s1.ptr);
      AddSound(s'.(ptr := e.ptr), e.bytes);
    } else {
      AddSound(s', [Unescaped(b)]);
    }
  }

  // ----- The other steps -----

  predicate NumberBegins(json: Text, s: State) {
    !s.flags.inString && !s.flags.done && s.flags.seekValue && !s.flags.needComma && !s.flags.needColon &&
    var b := ByteAt(json, s.ptr); Digit(b) || b == 45
  }

  lemma SeekSim(json: Text, s1: State, s2: State, f: seq<Node>, t1: State) returns (t2: State)
    requires WF(json, s1) && Sim(s1, s2, f) && s1.flags.seekValue && Tree(f)
    requires SeekStep(json, true, s1, ByteAt(json, s1.ptr)) == More(t1) && Counted(t1, f) && !NumberBegins(json, s1)
    ensures SeekStep(json, false, s2, ByteAt(json, s2.ptr)) == More(t2) && Sim(t1, t2, f) && Kept(s1, s2, t2)
  {
    hide Next, ValueStep, NodesSim, ChainNamed, Tree, Counted, Named;
    var b := ByteAt(json, s1.ptr);
    SameTop(s1, s2, f);
    if White(b) {
      t2 := On(s2);
    } else if b == 93 {
      var v1, v2 := s1.(flags := s1.flags.(needComma := false, seekValue := false)),
          s2.(flags := s2.flags.(needComma := false, seekValue := false));
      t2 := NextSim(v1, v2, f, false, t1);
    } else if s1.flags.needComma {
      t2 := On(s2.(flags := s2.flags.(needComma := false)));
    } else if s1.flags.needColon {
      t2 := On(s2.(flags := s2.flags.(needColon := false)));
    } else {
      t2 := ValueSim(json, s1.(flags := s1.flags.(seekValue := false)), s2.(flags := s2.flags.(seekValue := false)),
          f, t1);
    }
  }

  lemma SameTop(s1: State, s2: State, f: seq<Node>)
    requires NodesSim(s1.nodes, s2.nodes, f, s1.top, Writing(s1)) && s2.top == s1.top && NIL <= s1.top < |s1.nodes|
    ensures HasTop(s1) <==> HasTop(s2)
    ensures HasTop(s1) ==> Top(s1).kind == Top(s2).kind
  {
    if HasTop(s1) {
      SimTop(s1, s2, f);
    }
  }

  /** Both passes stand before a value. */
  ghost predicate Before(json: Text, s1: State, s2: State, f: seq<Node>) {
    && 0 <= s1.ptr <= |json| && Tree(s1.nodes) && Tree(f) && Quiet(s1) && !s1.flags.needComma && Control(s1, s2, f)
    && NIL <= s1.top < |s1.nodes| && (HasTop(s1) ==> Holds(Top(s1).kind))
    && NodesSim(s1.nodes, s2.nodes, f, s1.top, NIL) && ChainNamed(s2.nodes, s2.top)
    && (HasTop(s2) && Top(s2).kind == Object ==> Named(Top(s2), Top(s2).length))
  }

  lemma ValueSim(json: Text, s1: State, s2: State, f: seq<Node>, t1: State) returns (t2: State)
    requires Before(json, s1, s2, f)
    requires ValueStep(json, true, s1, ByteAt(json, s1.ptr)) == More(t1) && Counted(t1, f)
    requires !(Digit(ByteAt(json, s1.ptr)) || ByteAt(json, s1.ptr) == 45)
    ensures ValueStep(json, false, s2, ByteAt(json, s2.ptr)) == More(t2) && Sim(t1, t2, f) && Kept(s1, s2, t2)
  {
    hide Next, NodesSim, ChainNamed, Tree, Counted, Named, NewValue, Reads, Literal;
    var b := ByteAt(json, s1.ptr);
    if b == 123 {
      t2 := OpenSim(json, s1, s2, f, s1.flags, s1.stringLength, Object, t1);
    } else if b == 91 {
      t2 := OpenSim(json, s1, s2, f, s1.flags.(seekValue := true), s1.stringLength, Array, t1);
    } else if b == 34 {
      t2 := OpenSim(json, s1, s2, f, s1.flags.(inString := true), 0, Str, t1);
    } else if b == 116 || b == 102 {
      t2 := LiteralSim(json, s1, s2, f, if b == 116 then 3 else 4, Boolean, b == 116, t1);
    } else {
      t2 := LiteralSim(json, s1, s2, f, 3, Null, false, t1);
    }
  }

  lemma NumberOpen(json: Text, s: State, t: State)
    requires Quiet(s) && (Digit(ByteAt(json, s.ptr)) || ByteAt(json, s.ptr) == 45)
    requires ValueStep(json, true, s, ByteAt(json, s.ptr)) == More(t)
    ensures InNumber(t) && Quiet(t) && t.nodes == s.nodes + [NEW_NODE.(kind := Integer, parent := s.top)]
    ensures t.top == |s.nodes| && t.flags == s.flags && t.root == (if s.root == NIL then t.top else s.root)
    ensures t.ptr == if ByteAt(json, s.ptr) == 45 then s.ptr + 1 else s.ptr
    ensures t.stringLength == s.stringLength
  {
  }

  lemma OpenSim(json: Text, s1: State, s2: State, f: seq<Node>, flags: Flags, length: nat, kind: Kind, t1: State)
    returns (t2: State)
    requires Before(json, s1, s2, f) && (kind == Object || kind == Array || kind == Str)
    requires Advanced(NewValue(true, s1.(flags := flags, stringLength := length), kind)) == More(t1) && Counted(t1, f)
    requires flags == s1.flags.(seekValue := kind == Array, inString := kind == Str)
    requires kind == Str ==> length == 0
    ensures Advanced(NewValue(false, s2.(flags := flags, stringLength := length), kind)) == More(t2) &&
            Sim(t1, t2, f) && Kept(s1, s2, t2)
  {
    hide Next, NodesSim, ChainNamed, Tree, Counted, Named;
    var x := NEW_NODE.(kind := kind, parent := s1.top);
    assert Top(t1) == x;
    CountedTop(t1, f);
    CountedSize(t1, f);
    var u2 := NewSim(s1.(flags := flags, stringLength := length), s2.(flags := flags, stringLength := length), f,
        kind, x);
    t2 := On(u2);
    SameTop(t1, t2, f);
  }

  lemma CountedSize(s: State, f: seq<Node>)
    requires Counted(s, f)
    ensures |s.nodes| <= |f|
  {
  }

  lemma LiteralSim(json: Text, s1: State, s2: State, f: seq<Node>, n: nat, kind: Kind, value: bool, t1: State)
    returns (t2: State)
    requires Before(json, s1, s2, f) && (kind == Boolean || kind == Null)
    requires Literal(true, s1, n, kind, value) == More(t1) && Counted(t1, f)
    ensures Literal(false, s2, n, kind, value) == More(t2) && Sim(t1, t2, f) && Kept(s1, s2, t2)
  {
    hide Next, NodesSim, NodeSim, ChainNamed, Tree, Counted, Named;
    var v1 := NewValue(true, s1, kind).s;
    TreeNew(s1, kind);
    var x := Top(v1).(boolean := value);
    var x1 := WithTop(v1, x).(ptr := s1.ptr + n);
    TreeUpdate(v1, x);
    BackNext(x1, false, f);
    CountedTop(x1, f);
    CountedSize(x1, f);
    var u2 := NewSim(s1, s2, f, kind, x);
    assert s1.nodes + [x] == x1.nodes;
    SimTop(x1, u2, f);
    var y := Top(u2).(boolean := value);
    var x2 := WithTop(u2, y).(ptr := s2.ptr + n);
    BooleanSim(x, Top(u2), f[x1.top], value);
    NodesTop(x1.nodes, u2.nodes, f, x1.top, NIL, x, y, NIL);
    assert x1.nodes[x1.top := x] == x1.nodes;
    ChainNamedSame(u2.nodes, x2.nodes, u2.top);
    t2 := NextSim(x1, x2, f, false, t1);
  }

  lemma BooleanSim(a: Node, n: Node, f: Node, value: bool)
    requires NodeSim(a, n, f, NIL) && (a.kind == Boolean || a.kind == Null)
    ensures NodeSim(a, n.(boolean := value), f, NIL)
  {
  }

  /** One step of the second pass over a number, for all the steps that the first needs. */
  lemma NumberSim(json: Text, s1: State, s2: State, f: seq<Node>, t1: State) returns (u1: State, t2: State)
    requires Before(json, s1, s2, f)
    requires ValueStep(json, true, s1, ByteAt(json, s1.ptr)) == More(t1) && WF(json, t1)
    requires Digit(ByteAt(json, s1.ptr)) || ByteAt(json, s1.ptr) == 45
    requires Run(json, true, t1).Accepted? && Run(json, true, t1).s.nodes == f
    ensures ValueStep(json, false, s2, ByteAt(json, s2.ptr)) == More(t2) && Sim(u1, t2, f) && Kept(s1, s2, t2)
    ensures !u1.flags.inString && |s1.nodes| <= |u1.nodes|
    ensures WF(json, u1) && Measure(json, u1) < Measure(json, t1) && Run(json, true, u1) == Run(json, true, t1)
  {
    hide Next, NodesSim, NodeSim, ChainNamed, Tree, Counted, Named, SkipNumber, Measure, Run, NewValue, Reads;
    NumberOpen(json, s1, t1);
    SkipOne(json, s1.ptr);
    var n, num;
    n, num, u1 := NumberSkip(json, t1);
    NextFlags(WithTop(t1, n).(ptr := SkipNumber(json, t1.ptr), num := num), true);
    RunCounts(json, u1);
    t2 := NumberPair(json, s1, s2, f, t1, n, num, u1);
  }

  lemma NextFlags(s: State, reproc: bool)
    ensures var o := Next(true, s, reproc); o.More? ==>
            o.s.flags.inString == s.flags.inString && |o.s.nodes| == |s.nodes|
  {
  }

  lemma NumberPair(json: Text, s1: State, s2: State, f: seq<Node>, t1: State, n: Node, num: Num, u1: State)
    returns (t2: State)
    requires Before(json, s1, s2, f) && HasTop(t1) && Quiet(t1) && t1.flags == s1.flags && 0 <= t1.ptr <= |json| &&
             Tree(t1.nodes)
    requires t1.nodes == s1.nodes + [Top(t1)] && t1.top == |s1.nodes| && t1.stringLength == s1.stringLength
    requires Top(t1) == NEW_NODE.(kind := Integer, parent := s1.top)
    requires t1.root == if s1.root == NIL then t1.top else s1.root
    requires SkipNumber(json, t1.ptr) == SkipNumber(json, s1.ptr)
    requires IsNumber(n.kind) && n == Top(t1).(kind := n.kind, integer := n.integer)
    requires Next(true, WithTop(t1, n).(ptr := SkipNumber(json, t1.ptr), num := num), true) == More(u1) &&
             Counted(u1, f)
    ensures NewValue(false, s2, Integer).More?
    ensures Next(false, NewValue(false, s2, Integer).s.(ptr := SkipNumber(json, s2.ptr)), true) == More(t2)
    ensures Sim(u1, t2, f) && Kept(s1, s2, t2)
  {
    hide Next, NodesSim, NodeSim, ChainNamed, Tree, Counted, Named, SkipNumber, NewValue;
    var x1 := WithTop(t1, n).(ptr := SkipNumber(json, t1.ptr), num := num);
    TreeTop(t1);
    TreeUpdate(t1, n);
    BackNext(x1, true, f);
    NumberKind(x1, f, u1);
    CountedTop(x1, f);
    CountedSize(x1, f);
    var v2 := NewSim(s1, s2, f, Integer, n);
    assert s1.nodes + [n] == x1.nodes;
    t2 := NextSim(x1, v2.(ptr := SkipNumber(json, s2.ptr)), f, true, u1);
    forall i | 0 <= i < |s1.nodes| && i < |s2.nodes| && s1.nodes[i].kind == Str
      ensures t2.nodes[i] == s2.nodes[i]
    {
      assert x1.nodes[i] == s1.nodes[i];
    }
  }

  /** The kind of a number is final once it has ended. */
  lemma NumberKind(s: State, f: seq<Node>, t: State)
    requires Tree(s.nodes) && HasTop(s) && Quiet(s) && IsNumber(Top(s).kind) && Next(true, s, true) == More(t) &&
             Counted(t, f)
    ensures s.top < |f| && f[s.top].kind == Top(s).kind
  {
    var i := s.top;
    TreeTop(s);
    assert Grown(t.nodes[i], f[i], t.flags.inString && i == t.top, InNumber(t) && i == t.top);
  }

  lemma ObjectSim(json: Text, s1: State, s2: State, f: seq<Node>, t1: State) returns (t2: State)
    requires WF(json, s1) && Sim(s1, s2, f) && Quiet(s1) && Top(s1).kind == Object
    requires ObjectStep(true, s1, ByteAt(json, s1.ptr)) == More(t1) && Counted(t1, f)
    ensures ObjectStep(false, s2, ByteAt(json, s2.ptr)) == More(t2) && Sim(t1, t2, f) && Kept(s1, s2, t2)
  {
    hide Next, NodeSim, ChainNamed, Tree, Counted, Named, NodesSim;
    var b := ByteAt(json, s1.ptr);
    if White(b) {
      t2 := On(s2);
    } else if b == 34 {
      t2 := On(s2.(flags := s2.flags.(inString := true), stringLength := 0));
      NameBegins(s1.nodes, s2.nodes, f, s1.top);
    } else if b == 125 {
      t2 := NextSim(s1.(flags := s1.flags.(needComma := false)), s2.(flags := s2.flags.(needComma := false)), f,
          false, t1);
    } else {
      t2 := On(s2.(flags := s2.flags.(needComma := false)));
    }
  }

  lemma NameBegins(a: seq<Node>, n: seq<Node>, f: seq<Node>, top: int)
    requires NodesSim(a, n, f, top, NIL) && 0 <= top < |a| && a[top].kind == Object
    ensures NodesSim(a, n, f, top, 0)
  {
    assert NodeSim(a[top], n[top], f[top], if top == top then NIL else NIL);
    NodesTop(a, n, f, top, NIL, a[top], n[top], 0);
    assert a[top := a[top]] == a && n[top := n[top]] == n;
  }

  // ----- Whole passes -----

  lemma MeasureSim(json: Text, s1: State, s2: State, f: seq<Node>)
    requires Sim(s1, s2, f) && NIL <= s1.top < |s1.nodes|
    ensures Measure(json, s2) == Measure(json, s1)
  {
    SameTop(s1, s2, f);
  }

  lemma StepSim(json: Text, s1: State, s2: State, f: seq<Node>, t1: State) returns (t2: State)
    requires WF(json, s1) && Sim(s1, s2, f) && Counted(s1, f) && Tree(f) && !NumberBegins(json, s1)
    requires Step(json, true, s1) == More(t1) && Counted(t1, f)
    ensures Step(json, false, s2) == More(t2) && Sim(t1, t2, f) && Kept(s1, s2, t2)
    ensures s1.flags.inString ==> Follows(s1, s2, t1, t2, NextPiece(json, s1.ptr, s1.flags.escaped))
  {
    hide Follows, StringStep, SeekStep, ObjectStep, NumberStep, Counted, NodesSim, ChainNamed, Tree, Named;
    SameTop(s1, s2, f);
    if s1.flags.inString {
      t2 := StringSim(json, s1, s2, f, t1);
    } else if s1.flags.done {
      t2 := On(s2);
    } else if s1.flags.seekValue {
      t2 := SeekSim(json, s1, s2, f, t1);
    } else {
      t2 := ObjectSim(json, s1, s2, f, t1);
    }
  }

  lemma NumberStart(json: Text, s1: State, s2: State, f: seq<Node>, t1: State) returns (u1: State, t2: State)
    requires WF(json, s1) && Sim(s1, s2, f) && Tree(f) && NumberBegins(json, s1)
    requires Step(json, true, s1) == More(t1) && WF(json, t1) && Run(json, true, t1).Accepted? &&
             Run(json, true, t1).s.nodes == f
    ensures Step(json, false, s2) == More(t2) && Sim(u1, t2, f) && Kept(s1, s2, t2) && !u1.flags.inString &&
            |s1.nodes| <= |u1.nodes|
    ensures WF(json, u1) && Measure(json, u1) < Measure(json, t1) && Run(json, true, u1) == Run(json, true, t1)
  {
    hide ValueStep, NodesSim, ChainNamed, Tree, Named, Measure, Run, Counted;
    SameTop(s1, s2, f);
    u1, t2 := NumberSim(json, s1.(flags := s1.flags.(seekValue := false)),
        s2.(flags := s2.flags.(seekValue := false)), f, t1);
  }

  /** A string is begun only as a new value, or as a name. */
  lemma StringsBegin(json: Text, s: State, t: State)
    requires WF(json, s) && Step(json, true, s) == More(t)
    ensures |s.nodes| <= |t.nodes|
    ensures t.flags.inString ==>
              (s.flags.inString && t.top == s.top) || t.top >= |s.nodes| || (HasTop(t) && Top(t).kind == Object)
  {
    hide StringStep, EndString, Next, Tree, NumberChar, ValueStep, Reads;
    NextAll(json, s);
    if s.flags.inString {
      StringsGoOn(json, s, t);
    } else if s.flags.seekValue && !s.flags.done {
      ValuesBegin(json, s.(flags := s.flags.(seekValue := false)));
    }
  }

  lemma NextAll(json: Text, s: State)
    ensures forall x: State, reproc :: Next(true, x, reproc).More? ==>
              var y := Next(true, x, reproc).s; y.flags.inString == x.flags.inString && |y.nodes| == |x.nodes|
  {
  }

  lemma StringsGoOn(json: Text, s: State, t: State)
    requires WF(json, s) && s.flags.inString && StringStep(json, true, s, ByteAt(json, s.ptr)) == More(t)
    ensures |s.nodes| <= |t.nodes| && (t.flags.inString ==> t.top == s.top)
  {
    hide Add, UnicodeEscape, Next, Tree;
    NextAll(json, s);
    if s.flags.escaped || ByteAt(json, s.ptr) != 34 {
      StillInString(json, s, t);
    }
  }

  lemma ValuesBegin(json: Text, s: State)
    requires !s.flags.inString && NIL <= s.top < |s.nodes|
    ensures var o := ValueStep(json, true, s, ByteAt(json, s.ptr));
            o.More? ==> |s.nodes| <= |o.s.nodes| && (o.s.flags.inString ==> o.s.top >= |s.nodes|)
  {
    hide Next, Reads;
    NextAll(json, s);
  }

  /** Strings that have ended in the first pass stay so. */
  lemma KeptOn(s1: State, s2: State, u1: State, t2: State, e2: State, f: seq<Node>)
    requires Sim(s1, s2, f) && Sim(u1, t2, f) && Kept(s1, s2, t2) && Kept(u1, t2, e2) && |s1.nodes| <= |u1.nodes|
    requires u1.flags.inString ==>
               (s1.flags.inString && u1.top == s1.top) || u1.top >= |s1.nodes| || (HasTop(u1) && Top(u1).kind == Object)
    ensures Kept(s1, s2, e2)
  {
    forall i | 0 <= i < |s1.nodes| && i < |s2.nodes| && s1.nodes[i].kind == Str && !(s1.flags.inString && i == s1.top)
      ensures e2.nodes[i] == s2.nodes[i]
    {
      assert NodeSim(s1.nodes[i], s2.nodes[i], f[i], if i == s1.top then Writing(s1) else NIL);
      assert NodeSim(u1.nodes[i], t2.nodes[i], f[i], if i == u1.top then Writing(u1) else NIL);
    }
  }

  /** The second pass accepts what the first accepts, and stays with it to the end. */
  lemma {:induction false} RunSim(json: Text, s1: State, s2: State, f: seq<Node>) returns (e2: State)
    requires WF(json, s1) && Sim(s1, s2, f) && Tree(f)
    requires Run(json, true, s1).Accepted? && Run(json, true, s1).s.nodes == f
    ensures Run(json, false, s2) == Accepted(e2) && Sim(Run(json, true, s1).s, e2, f) &&
            Run(json, true, s1).s.flags.done
    ensures Kept(s1, s2, e2)
    decreases Measure(json, s1)
  {
    hide Step, Measure, Sim, WF, Tree, Kept;
    StepSound(json, s1);
    WFTop(json, s1);
    MeasureSim(json, s1, s2, f);
    match Step(json, true, s1)
    case Finished(_) =>
      DoneSim(json, s1, s2, f);
      e2 := s2;
      KeptSame(s1, s2);
    case More(t1) =>
      var u1, t2 := PairStep(json, s1, s2, f, t1);
      WFTop(json, u1);
      MeasureSim(json, u1, t2, f);
      e2 := RunSim(json, u1, t2, f);
      NonNegative(json, u1);
      KeptOn(s1, s2, u1, t2, e2, f);
  }

  lemma KeptSame(s1: State, s2: State)
    ensures Kept(s1, s2, s2)
  {
  }

  /** One step of the second pass, and as many of the first as it takes to be at the same place again. */
  lemma PairStep(json: Text, s1: State, s2: State, f: seq<Node>, t1: State) returns (u1: State, t2: State)
    requires WF(json, s1) && Sim(s1, s2, f) && Tree(f)
    requires Step(json, true, s1) == More(t1) && WF(json, t1) && 0 <= Measure(json, t1) < Measure(json, s1)
    requires Run(json, true, s1).Accepted? && Run(json, true, s1).s.nodes == f
    ensures Step(json, false, s2) == More(t2) && Sim(u1, t2, f) && Kept(s1, s2, t2) && |s1.nodes| <= |u1.nodes|
    ensures WF(json, u1) && Measure(json, u1) < Measure(json, s1) && Run(json, true, u1) == Run(json, true, s1)
    ensures u1.flags.inString ==>
              (s1.flags.inString && u1.top == s1.top) || u1.top >= |s1.nodes| || (HasTop(u1) && Top(u1).kind == Object)
    ensures !NumberBegins(json, s1) ==> u1 == t1
    ensures s1.flags.inString ==> Follows(s1, s2, t1, t2, NextPiece(json, s1.ptr, s1.flags.escaped))
  {
    hide Step, Measure, Sim, WF, Tree, Kept, Follows;
    if NumberBegins(json, s1) {
      u1, t2 := NumberStart(json, s1, s2, f, t1);
    } else {
      RunCounts(json, s1);
      RunCounts(json, t1);
      StringsBegin(json, s1, t1);
      t2 := StepSim(json, s1, s2, f, t1);
      u1 := t1;
    }
  }

  lemma WFTop(json: Text, s: State)
    requires WF(json, s)
    ensures NIL <= s.top < |s.nodes|
  {
  }

  lemma NonNegative(json: Text, s: State)
    requires WF(json, s)
    ensures Measure(json, s) >= 0
  {
  }

  lemma DoneSim(json: Text, s1: State, s2: State, f: seq<Node>)
    requires Sim(s1, s2, f) && s1.flags.done && Step(json, true, s1).Finished? && WF(json, s1)
    ensures Step(json, false, s2) == Finished(s2)
  {
  }

  // ----- The theorem -----

  /** All that was counted has been filled in: no cell is left over, and none was missing. */
  predicate Filled(n: Node, f: Node) {
    && n.kind == f.kind && n.parent == f.parent && (n.kind == Str || Holds(n.kind) ==> n.length == f.length)
    && (n.kind == Str ==> |n.buffer| == n.length + 1)
    && (n.kind == Object ==> n.objectMem == f.keyBytes == |n.buffer|)
    && (n.kind == Str || n.kind == Object ==> AllFull(n.buffer, |n.buffer|))
    && (Holds(n.kind) ==> |n.slots| == n.length && forall k | 0 <= k < n.length ::
          n.slots[k].value != NIL && (n.kind == Object ==> Named(n, k)))
  }

  /**
   The first pass accepts or rejects every text and never breaks.  If it accepts,
   so does the second: it finds room for every character, name, item and member,
   leaves no room over, and uses up the list of values in order.
   */
  lemma TwoPasses(json: Text) returns (e2: State)
    ensures var r := Run(json, true, Start(NIL, []));
            && r != Crashed
            && (r.Accepted? ==>
                  var f := r.s.nodes;
                  && |f| > 0 && Run(json, false, Start(0, f)) == Accepted(e2)
                  && |e2.nodes| == |f| && e2.alloc == NIL && e2.root == r.s.root == 0
                  && forall i | 0 <= i < |f| :: Filled(e2.nodes[i], f[i]))
  {
    hide Step, Measure, Run;
    var s1 := Start(NIL, []);
    FirstPassEnds(json, s1);
    e2 := s1;
    if Run(json, true, s1).Accepted? {
      var e1 := Run(json, true, s1).s;
      RunKeeps(json, s1);
      e2 := RunSim(json, s1, Start(0, e1.nodes), e1.nodes);
      AllFilled(e1, e2);
    }
  }

  /** At the end of the first pass there are values, and the first of them is the root. */
  lemma {:induction false} RunKeeps(json: Text, s: State)
    requires WF(json, s) && Run(json, true, s).Accepted?
    ensures var e := Run(json, true, s).s; WF(json, e) && e.flags.done && e.nodes != []
    decreases Measure(json, s)
  {
    hide Step, Measure, Tree;
    StepSound(json, s);
    match Step(json, true, s)
    case More(s') =>
      RunKeeps(json, s');
    case Finished(_) =>
  }

  lemma AllFilled(e1: State, e2: State)
    requires Sim(e1, e2, e1.nodes) && e1.flags.done && Shaped(e1)
    ensures |e2.nodes| == |e1.nodes| && forall i | 0 <= i < |e1.nodes| :: Filled(e2.nodes[i], e1.nodes[i])
  {
    hide Filled, NodeSim;
    forall i | 0 <= i < |e1.nodes|
      ensures Filled(e2.nodes[i], e1.nodes[i])
    {
      assert NodeSim(e1.nodes[i], e2.nodes[i], e1.nodes[i], if i == e1.top then NIL else NIL);
      NodeFilled(e2.nodes[i], e1.nodes[i]);
    }
  }

  lemma NodeFilled(n: Node, f: Node)
    requires NodeSim(f, n, f, NIL)
    ensures Filled(n, f)
  {
  }

  // ----- Strings, from the text to the value -----

  /** These bytes stand in the cells from `at` on. */
  predicate HoldsAt(cells: seq<Cell<Byte>>, at: int, bytes: seq<Byte>) {
    0 <= at && at + |bytes| <= |cells| && forall j | 0 <= j < |bytes| :: cells[at + j] == Full(bytes[j])
  }

  lemma {:induction false} StoredAt(cells: seq<Cell<Byte>>, at: nat, done: seq<Byte>, bytes: seq<Byte>)
    requires HoldsAt(cells, at, done) && at + |done| + |bytes| <= |cells|
    ensures var c := Stored(cells, at + |done|, bytes); |c| == |cells| && HoldsAt(c, at, done + bytes)
    decreases |bytes|
  {
    if bytes == [] {
      assert done + bytes == done;
    } else {
      var done' := done + [bytes[0]];
      StoredAt(cells[at + |done| := Full(bytes[0])], at, done', bytes[1..]);
      assert done' + bytes[1..] == done + bytes;
    }
  }

  /** A string of the result: its bytes and a NUL, and nothing else. */
  predicate IsText(n: Node, bytes: seq<Byte>) {
    n.kind == Str && n.length == |bytes| && |n.buffer| == |bytes| + 1 && HoldsAt(n.buffer, 0, bytes) &&
        n.buffer[|bytes|] == Full(0)
  }

  /** Reading on in a string, `done` of which has been read, gives it what the rest of its text means. */
  lemma {:induction false} StringValue(json: Text, s1: State, s2: State, f: seq<Node>, done: seq<Byte>)
    returns (e2: State)
    requires WF(json, s1) && Sim(s1, s2, f) && Tree(f) && s1.flags.inString && Top(s1).kind == Str
    requires Run(json, true, s1).Accepted? && Run(json, true, s1).s.nodes == f
    requires HasTop(s2) && |done| == s2.stringLength && HoldsAt(Top(s2).buffer, 0, done)
    ensures Run(json, false, s2) == Accepted(e2) && Decode(json, s1.ptr, s1.flags.escaped).Meaning?
    ensures s1.top < |e2.nodes| && IsText(e2.nodes[s1.top], done + Decode(json, s1.ptr, s1.flags.escaped).bytes)
    decreases Measure(json, s1)
  {
    hide Step, Measure, Sim, WF, Tree, Kept, NextPiece, IsText, HoldsAt, Run, Decode, Stored;
    StepSound(json, s1);
    WFString(json, s1);
    RunOn(json, true, s1);
    var t1 := Step(json, true, s1).s;
    var u1, t2 := PairStep(json, s1, s2, f, t1);
    WFTop(json, t1);
    NonNegative(json, t1);
    MeasureSim(json, s1, s2, f);
    MeasureSim(json, t1, t2, f);
    RunOn(json, false, s2);
    SimSame(s1, s2, f);
    DecodeStep(json, s1.ptr, s1.flags.escaped);
    var p := NextPiece(json, s1.ptr, s1.flags.escaped);
    assert p != Nothing;
    if p == Quote {
      e2 := RunSim(json, t1, t2, f);
      TextEnds(s2, t1, t2, e2, f, done);
      assert done + [] == done;
    } else {
      PieceFits(s2, t1, t2, f, done, p.bytes);
      SimSame(t1, t2, f);
      e2 := StringValue(json, t1, t2, f, done + p.bytes);
      var rest := Decode(json, p.next, p.escaped).bytes;
      assert done + (p.bytes + rest) == (done + p.bytes) + rest;
    }
  }

  lemma WFString(json: Text, s: State)
    requires WF(json, s) && s.flags.inString
    ensures !s.flags.done && NIL <= s.top < |s.nodes| && !NumberBegins(json, s)
  {
  }

  lemma RunOn(json: Text, first: bool, s: State)
    ensures var o := Step(json, first, s);
            && (o.More? && 0 <= Measure(json, o.s) < Measure(json, s) ==> Run(json, first, s) == Run(json, first, o.s))
            && (Run(json, first, s).Accepted? ==> o.More? || o.Finished?)
  {
    hide Step, Measure;
  }

  lemma SimSame(s1: State, s2: State, f: seq<Node>)
    requires Sim(s1, s2, f)
    ensures s2.top == s1.top && s2.stringLength == s1.stringLength && s2.flags == s1.flags && s2.ptr == s1.ptr
    ensures |s2.nodes| == |f| && |s1.nodes| <= |f| && (HasTop(s1) ==> HasTop(s2) && Top(s2).kind == Top(s1).kind)
  {
    if HasTop(s1) {
      SimTop(s1, s2, f);
    }
  }

  lemma DecodeStep(json: Text, p: int, escaped: bool)
    ensures NextPiece(json, p, escaped) == Quote ==> Decode(json, p, escaped) == Meaning([], p)
    ensures match NextPiece(json, p, escaped)
            case Piece(bytes, next, escaped') =>
              p < |json| && Decode(json, p, escaped) ==
              (match Decode(json, next, escaped')
               case NoMeaning => NoMeaning
               case Meaning(rest, end) => Meaning(bytes + rest, end))
            case _ => true
  {
    hide UnicodeEscape, Unescaped;
  }

  lemma {:induction false} StoredLength(cells: seq<Cell<Byte>>, at: nat, bytes: seq<Byte>)
    ensures |Stored(cells, at, bytes)| == |cells|
    decreases |bytes|
  {
    if bytes != [] && at < |cells| {
      StoredLength(cells[at := Full(bytes[0])], at + 1, bytes[1..]);
    }
  }

  lemma PieceFits(s2: State, t1: State, t2: State, f: seq<Node>, done: seq<Byte>, bytes: seq<Byte>)
    requires Sim(t1, t2, f) && HasTop(t1) && t1.flags.inString && Top(t1).kind == Str && HasTop(s2) && s2.top == t1.top
    requires Top(s2).kind == Str && |done| == s2.stringLength && t1.stringLength == |done + bytes| &&
             HoldsAt(Top(s2).buffer, 0, done)
    requires s2.top < |t2.nodes| && t2.nodes[s2.top] == Top(s2).(buffer := Stored(Top(s2).buffer, |done|, bytes))
    ensures HasTop(t2) && HoldsAt(Top(t2).buffer, 0, done + bytes)
  {
    SimTop(t1, t2, f);
    StoredLength(Top(s2).buffer, |done|, bytes);
    StoredAt(Top(s2).buffer, 0, done, bytes);
  }

  lemma TextEnds(s2: State, t1: State, t2: State, e2: State, f: seq<Node>, done: seq<Byte>)
    requires Sim(t1, t2, f) && Kept(t1, t2, e2) && HasTop(s2) && |done| == s2.stringLength &&
             HoldsAt(Top(s2).buffer, 0, done)
    requires !t1.flags.inString && s2.top < |t1.nodes| && t1.nodes[s2.top].kind == Str
    requires s2.top < |t2.nodes| && s2.stringLength < |Top(s2).buffer|
    requires t2.nodes[s2.top] == Top(s2).(buffer := Top(s2).buffer[s2.stringLength := Full(0)],
             length := s2.stringLength)
    ensures s2.top < |e2.nodes| && IsText(e2.nodes[s2.top], done)
  {
    var i := s2.top;
    assert NodeSim(t1.nodes[i], t2.nodes[i], f[i], if i == t1.top then Writing(t1) else NIL);
    assert e2.nodes[i] == t2.nodes[i];
  }

  /** A string value of an accepted text has, in the result, the bytes that its text means. */
  lemma StringIsDecoded(json: Text, s1: State, s2: State, f: seq<Node>) returns (e2: State)
    requires WF(json, s1) && Sim(s1, s2, f) && Tree(f) && ValueHere(s1) && ByteAt(json, s1.ptr) == 34
    requires Run(json, true, s1).Accepted? && Run(json, true, s1).s.nodes == f
    ensures Run(json, false, s2) == Accepted(e2) && Decode(json, s1.ptr + 1, false).Meaning?
    ensures |s1.nodes| < |e2.nodes| && IsText(e2.nodes[|s1.nodes|], Decode(json, s1.ptr + 1, false).bytes)
  {
    hide Measure, Sim, WF, Tree, Kept, Run, Decode, IsText, Step;
    StepSound(json, s1);
    RunOn(json, true, s1);
    Opening(json, s1);
    var t1 := Step(json, true, s1).s;
    var u1, t2 := PairStep(json, s1, s2, f, t1);
    WFTop(json, s1);
    WFTop(json, t1);
    NonNegative(json, t1);
    MeasureSim(json, s1, s2, f);
    MeasureSim(json, t1, t2, f);
    RunOn(json, false, s2);
    SimSame(t1, t2, f);
    e2 := StringValue(json, t1, t2, f, []);
    assert [] + Decode(json, t1.ptr, false).bytes == Decode(json, t1.ptr, false).bytes;
  }

  predicate ValueHere(s: State) {
    !s.flags.inString && !s.flags.done && s.flags.seekValue && !s.flags.needComma && !s.flags.needColon
  }

  lemma Opening(json: Text, s: State)
    requires WF(json, s) && ValueHere(s) && ByteAt(json, s.ptr) == 34
    ensures var o := Step(json, true, s);
            !NumberBegins(json, s) && o.More? && o.s.ptr == s.ptr + 1 && o.s.flags.inString && !o.s.flags.escaped &&
                o.s.stringLength == 0
            && o.s.top == |s.nodes| && HasTop(o.s) && Top(o.s).kind == Str
  {
  }

  lemma StartSims(json: Text, first: State)
    requires Run(json, true, Start(NIL, [])) == Accepted(first)
    ensures WF(json, Start(NIL, [])) && Tree(first.nodes) && Sim(Start(NIL, []), Start(0, first.nodes), first.nodes)
  {
    hide Run, Step, Measure;
    RunKeeps(json, Start(NIL, []));
  }
}
