/**
 The names of the members of objects, from the text to the key area (src/json.c):
 a name that has been read is not written to again.
 */
module JsonNames {
  import opened Bytes
  import opened Json
  import opened JsonFirstPass
  import opened JsonCounts
  import opened JsonSecondPass
  import opened JsonTree
  import opened JsonText

  /** The name of member `k`, with a NUL behind it, in the used part of the key area. */
  predicate NameIs(n: Node, k: int, bytes: seq<Byte>) {
    0 <= k < |n.slots| &&
    var m := n.slots[k];
    m.nameLength == |bytes| && HoldsAt(n.buffer, m.nameAt, bytes + [0]) && m.nameAt + |bytes| < n.objectMem
  }

  /** Member `k` is there, or only its value is missing. */
  predicate NameRead(s: State, i: int, k: int)
    requires 0 <= i < |s.nodes|
  {
    || k < s.nodes[i].length
    || (k == s.nodes[i].length && (i != s.top || (s.flags.seekValue && !s.flags.inString && !s.flags.done)))
  }

  predicate Safe(s: State, i: int, k: int, bytes: seq<Byte>) {
    0 <= i < |s.nodes| && i < Live(s) && s.nodes[i].kind == Object && NameIs(s.nodes[i], k, bytes) && NameRead(s, i, k)
  }

  // ----- The steps of the second pass -----

  lemma NameStays(n: Node, n': Node, k: int, bytes: seq<Byte>)
    requires NameIs(n, k, bytes) && |n'.slots| == |n.slots| && |n'.buffer| == |n.buffer| && n.objectMem <= n'.objectMem
    requires n'.slots[k].nameAt == n.slots[k].nameAt && n'.slots[k].nameLength == n.slots[k].nameLength
    requires forall j | 0 <= j < n.objectMem && j < |n.buffer| :: n'.buffer[j] == n.buffer[j]
    ensures NameIs(n', k, bytes)
  {
  }

  lemma NextKeeps(s: State, reproc: bool, i: int, k: int, bytes: seq<Byte>)
    requires Safe(s, i, k, bytes) && (k < s.nodes[i].length || i != s.top)
    ensures Next(false, s, reproc).More? ==> Safe(Next(false, s, reproc).s, i, k, bytes)
  {
    hide NameIs;
    if Next(false, s, reproc).More? {
      var n, n' := s.nodes[i], Next(false, s, reproc).s.nodes[i];
      NameBounds(n, k, bytes);
      NameStays(n, n', k, bytes);
    }
  }

  lemma NameBounds(n: Node, k: int, bytes: seq<Byte>)
    requires NameIs(n, k, bytes)
    ensures 0 <= k < |n.slots|
  {
  }

  lemma {:induction false} AddKeeps(s: State, added: seq<Byte>, i: int, k: int, bytes: seq<Byte>)
    requires Safe(s, i, k, bytes)
    ensures Add(false, s, added).More? ==>
              var t := Add(false, s, added).s;
              Safe(t, i, k, bytes) && t.top == s.top && t.flags == s.flags && t.nodes[i].length == s.nodes[i].length
    decreases |added|
  {
    hide NameIs;
    if added != [] && Write(s, added[0]).More? {
      var s' := Write(s, added[0]).s;
      WriteKeeps(s, added[0], i, k, bytes);
      AddKeeps(s'.(stringLength := s'.stringLength + 1), added[1..], i, k, bytes);
    }
  }

  lemma WriteKeeps(s: State, b: Byte, i: int, k: int, bytes: seq<Byte>)
    requires Safe(s, i, k, bytes) && Write(s, b).More?
    ensures var t := Write(s, b).s;
            Safe(t, i, k, bytes) && t == s.(nodes := t.nodes) && t.nodes[i] == s.nodes[i].(buffer := t.nodes[i].buffer)
  {
    hide NameIs;
    var t := Write(s, b).s;
    NameBounds(s.nodes[i], k, bytes);
    NameStays(s.nodes[i], t.nodes[i], k, bytes);
  }

  lemma EndKeeps(s: State, i: int, k: int, bytes: seq<Byte>)
    requires Safe(s, i, k, bytes) && (k < s.nodes[i].length || i != s.top) && EndString(false, s).More?
    ensures Safe(EndString(false, s).s, i, k, bytes)
  {
    hide NameIs, Next, Write;
    WriteKeeps(s, 0, i, k, bytes);
    WriteTop(s, 0);
    var u := Write(s, 0).s.(flags := s.flags.(inString := false));
    var n := Top(u);
    NameBounds(u.nodes[i], k, bytes);
    if n.kind == Str {
      NextKeeps(WithTop(u, n.(length := s.stringLength)), false, i, k, bytes);
    } else {
      NameStays(u.nodes[i], EndString(false, s).s.nodes[i], k, bytes);
    }
  }

  lemma StringKeeps(json: Text, s: State, i: int, k: int, bytes: seq<Byte>)
    requires Safe(s, i, k, bytes) && s.flags.inString && StringStep(json, false, s, ByteAt(json, s.ptr)).More?
    ensures Safe(StringStep(json, false, s, ByteAt(json, s.ptr)).s, i, k, bytes)
  {
    hide NameIs, Next, EndString, Add, UnicodeEscape, Unescaped;
    var b := ByteAt(json, s.ptr);
    if s.flags.escaped {
      var s' := s.(flags := s.flags.(escaped := false));
      if b == 117 {
        var e := UnicodeEscape(json, s.ptr);
        AddKeeps(s'.(ptr := e.ptr), e.bytes, i, k, bytes);
      } else {
        AddKeeps(s', [Unescaped(b)], i, k, bytes);
      }
    } else if b == 34 {
      EndKeeps(s, i, k, bytes);
    } else if b != 92 {
      AddKeeps(s, [b], i, k, bytes);
    }
  }

  lemma NewKeeps(s: State, kind: Kind, i: int, k: int, bytes: seq<Byte>)
    requires 0 <= i < |s.nodes| && i < Live(s) && s.nodes[i].kind == Object && NameIs(s.nodes[i], k, bytes) &&
             k <= s.nodes[i].length
    requires NewValue(false, s, kind).More?
    ensures var y := NewValue(false, s, kind).s; Safe(y, i, k, bytes) && i != y.top && HasTop(y)
  {
    hide NameIs, Allocated;
  }

  lemma ValueKeeps(json: Text, s: State, i: int, k: int, bytes: seq<Byte>)
    requires 0 <= i < |s.nodes| && i < Live(s) && s.nodes[i].kind == Object && NameIs(s.nodes[i], k, bytes) &&
             k <= s.nodes[i].length
    requires ValueStep(json, false, s, ByteAt(json, s.ptr)).More?
    ensures Safe(ValueStep(json, false, s, ByteAt(json, s.ptr)).s, i, k, bytes)
  {
    hide NameIs, NewValue, Next, Reads, SkipNumber;
    var b := ByteAt(json, s.ptr);
    if b == 123 {
      NewKeeps(s, Object, i, k, bytes);
    } else if b == 91 {
      NewKeeps(s.(flags := s.flags.(seekValue := true)), Array, i, k, bytes);
    } else if b == 34 {
      NewKeeps(s.(flags := s.flags.(inString := true), stringLength := 0), Str, i, k, bytes);
    } else if b == 116 || b == 102 || b == 110 {
      var kind := if b == 110 then Null else Boolean;
      NewKeeps(s, kind, i, k, bytes);
      var y := NewValue(false, s, kind).s;
      NextKeeps(WithTop(y, Top(y).(boolean := b == 116)).(ptr := s.ptr + if b == 102 then 4 else 3), false, i, k,
          bytes);
    } else {
      NewKeeps(s, Integer, i, k, bytes);
      NextKeeps(NewValue(false, s, Integer).s.(ptr := SkipNumber(json, s.ptr)), true, i, k, bytes);
    }
  }

  /** No step of the second pass touches a name that has been read. */
  lemma StepKeeps(json: Text, s: State, i: int, k: int, bytes: seq<Byte>)
    requires Safe(s, i, k, bytes) && Step(json, false, s).More? && !InNumber(s)
    ensures Safe(Step(json, false, s).s, i, k, bytes)
  {
    hide NameIs, Next, StringStep, ValueStep;
    var b := ByteAt(json, s.ptr);
    if s.flags.inString {
      StringKeeps(json, s, i, k, bytes);
    } else if s.flags.done {
    } else if s.flags.seekValue {
      if White(b) {
      } else if b == 93 {
        NextKeeps(s.(flags := s.flags.(needComma := false, seekValue := false)), false, i, k, bytes);
      } else if !s.flags.needComma && !s.flags.needColon {
        ValueKeeps(json, s.(flags := s.flags.(seekValue := false)), i, k, bytes);
      }
    } else if !White(b) && b == 125 {
      NextKeeps(s.(flags := s.flags.(needComma := false)), false, i, k, bytes);
    }
  }

  /** A name that has been read is still there at the end. */
  lemma {:induction false} RunKeepsName(json: Text, s1: State, s2: State, f: seq<Node>, i: int, k: int,
                                        bytes: seq<Byte>)
    returns (e2: State)
    requires WF(json, s1) && Sim(s1, s2, f) && Tree(f) && Safe(s2, i, k, bytes)
    requires Run(json, true, s1).Accepted? && Run(json, true, s1).s.nodes == f
    ensures Run(json, false, s2) == Accepted(e2) && i < |e2.nodes| && NameIs(e2.nodes[i], k, bytes)
    decreases Measure(json, s1)
  {
    hide Step, Measure, Sim, WF, Tree, Kept, Counted, NameIs, NameRead, Run;
    StepSound(json, s1);
    WFTop(json, s1);
    RunOn(json, true, s1);
    MeasureSim(json, s1, s2, f);
    RunOn(json, false, s2);
    SimList(json, s1, s2, f);
    match Step(json, true, s1)
    case Finished(_) =>
      DoneSim(json, s1, s2, f);
      RunEnds(json, false, s2);
      e2 := s2;
    case More(t1) =>
      var u1, t2 := PairStep(json, s1, s2, f, t1);
      StepKeeps(json, s2, i, k, bytes);
      WFTop(json, u1);
      MeasureSim(json, u1, t2, f);
      NonNegative(json, u1);
      e2 := RunKeepsName(json, u1, t2, f, i, k, bytes);
  }

  // ----- Reading a name -----

  lemma NamePieceFits(s2: State, t1: State, t2: State, f: seq<Node>, done: seq<Byte>, bytes: seq<Byte>)
    requires Sim(t1, t2, f) && HasTop(t1) && t1.flags.inString && Top(t1).kind == Object && HasTop(s2) &&
             s2.top == t1.top
    requires Top(s2).kind == Object && t1.stringLength == |done + bytes| &&
             HoldsAt(Top(s2).buffer, Top(s2).objectMem, done)
    requires s2.top < |t2.nodes|
    requires t2.nodes[s2.top] == Top(s2).(buffer := Stored(Top(s2).buffer, Top(s2).objectMem + |done|, bytes))
    ensures HasTop(t2) && HoldsAt(Top(t2).buffer, Top(t2).objectMem, done + bytes)
  {
    SimTop(t1, t2, f);
    StoredLength(Top(s2).buffer, Top(s2).objectMem + |done|, bytes);
    StoredAt(Top(s2).buffer, Top(s2).objectMem, done, bytes);
  }

  /** The closing quote. */
  lemma NameEnds(json: Text, s: State, done: seq<Byte>)
    requires s.flags.inString && !s.flags.escaped && ByteAt(json, s.ptr) == 34 && HasTop(s) && s.top < Live(s) &&
             Top(s).kind == Object
    requires |done| == s.stringLength && HoldsAt(Top(s).buffer, Top(s).objectMem, done) &&
             Step(json, false, s).More? && !s.flags.done
    ensures Safe(Step(json, false, s).s, s.top, Top(s).length, done)
  {
    hide Next;
  }

  /** Reading on in a name, `done` of which has been read. */
  lemma {:induction false} NameValue(json: Text, s1: State, s2: State, f: seq<Node>, done: seq<Byte>)
    returns (e2: State)
    requires WF(json, s1) && Sim(s1, s2, f) && Tree(f) && s1.flags.inString && Top(s1).kind == Object
    requires Run(json, true, s1).Accepted? && Run(json, true, s1).s.nodes == f
    requires HasTop(s2) && |done| == s2.stringLength && HoldsAt(Top(s2).buffer, Top(s2).objectMem, done)
    ensures Run(json, false, s2) == Accepted(e2) && Decode(json, s1.ptr, s1.flags.escaped).Meaning? &&
            s1.top < |e2.nodes|
    ensures NameIs(e2.nodes[s1.top], Top(s2).length, done + Decode(json, s1.ptr, s1.flags.escaped).bytes)
    decreases Measure(json, s1)
  {
    hide Step, Measure, Sim, WF, Tree, Kept, NextPiece, NameIs, HoldsAt, Run, Decode, Stored, Safe;
    StepSound(json, s1);
    WFString(json, s1);
    RunOn(json, true, s1);
    var t1 := Step(json, true, s1).s;
    var u1, t2 := PairStep(json, s1, s2, f, t1);
    WFTop(json, t1);
    NonNegative(json, t1);
    MeasureSim(json, s1, s2, f);
    MeasureSim(json, t1, t2, f);
    RunOn(json, false, s2);
    SimSame(s1, s2, f);
    SimList(json, s1, s2, f);
    DecodeStep(json, s1.ptr, s1.flags.escaped);
    var p := NextPiece(json, s1.ptr, s1.flags.escaped);
    assert p != Nothing;
    if p == Quote {
      QuoteByte(json, s1.ptr, s1.flags.escaped);
      NameEnds(json, s2, done);
      e2 := RunKeepsName(json, t1, t2, f, s2.top, Top(s2).length, done);
      assert done + [] == done;
    } else {
      NamePieceFits(s2, t1, t2, f, done, p.bytes);
      SimSame(t1, t2, f);
      e2 := NameValue(json, t1, t2, f, done + p.bytes);
      var rest := Decode(json, p.next, p.escaped).bytes;
      assert done + (p.bytes + rest) == (done + p.bytes) + rest;
    }
  }

  lemma QuoteByte(json: Text, p: int, escaped: bool)
    requires NextPiece(json, p, escaped) == Quote
    ensures ByteAt(json, p) == 34 && !escaped
  {
  }

  /** A name begins here. */
  predicate NameHere(json: Text, s: State) {
    Quiet(s) && HasTop(s) && Top(s).kind == Object && !s.flags.needComma && ByteAt(json, s.ptr) == 34
  }

  lemma NameOpens(json: Text, s1: State, s2: State, f: seq<Node>)
    requires WF(json, s1) && Sim(s1, s2, f) && Tree(f) && NameHere(json, s1)
    ensures var o := Step(json, true, s1);
            && !NumberBegins(json, s1) && o.More? && o.s.ptr == s1.ptr + 1 && o.s.flags.inString && !o.s.flags.escaped
            && o.s.stringLength == 0 && o.s.nodes == s1.nodes && o.s.top == s1.top
    ensures var o := Step(json, false, s2);
            && o.More? && o.s.stringLength == 0 && o.s.nodes == s2.nodes && o.s.top == s2.top == s1.top
            && HasTop(s2) && Top(s2).kind == Object && Top(s2).length == Top(s1).length
            && HoldsAt(Top(s2).buffer, Top(s2).objectMem, [])
  {
    hide Tree, ChainNamed, Named;
    SimTop(s1, s2, f);
  }

  /** The name of a member of an accepted text has, in the key area of the result, the bytes that its text means. */
  lemma NameIsDecoded(json: Text, s1: State, s2: State, f: seq<Node>) returns (e2: State)
    requires WF(json, s1) && Sim(s1, s2, f) && Tree(f) && NameHere(json, s1)
    requires Run(json, true, s1).Accepted? && Run(json, true, s1).s.nodes == f
    ensures Run(json, false, s2) == Accepted(e2) && Decode(json, s1.ptr + 1, false).Meaning? && s1.top < |e2.nodes|
    ensures NameIs(e2.nodes[s1.top], Top(s1).length, Decode(json, s1.ptr + 1, false).bytes)
  {
    hide Measure, Sim, WF, Tree, Kept, Run, Decode, NameIs, Step;
    StepSound(json, s1);
    RunOn(json, true, s1);
    NameOpens(json, s1, s2, f);
    var t1 := Step(json, true, s1).s;
    var u1, t2 := PairStep(json, s1, s2, f, t1);
    WFTop(json, s1);
    WFTop(json, t1);
    NonNegative(json, t1);
    MeasureSim(json, s1, s2, f);
    MeasureSim(json, t1, t2, f);
    RunOn(json, false, s2);
    SimSame(t1, t2, f);
    e2 := NameValue(json, t1, t2, f, []);
    assert [] + Decode(json, t1.ptr, false).bytes == Decode(json, t1.ptr, false).bytes;
  }

  // ----- All names of a text -----

  /** How many members value `i` has. */
  function Members(s: State, i: int): nat
    requires 0 <= i < |s.nodes|
  {
    |Bones(s.nodes)[i].kids|
  }

  /** Value `i` gets no more kids. */
  ghost predicate Closed(s: State, i: int) {
    0 <= i < |s.nodes| && i < Live(s) && (s.flags.done || !Open(Bones(s.nodes), s.top, i))
  }

  /** Name `k` of value `i` is still to be begun. */
  ghost predicate ToCome(s: State, i: int, k: int)
    requires 0 <= i < |s.nodes|
  {
    || Live(s) <= i
    || (!s.flags.done && Open(Bones(s.nodes), s.top, i)
        && (Members(s, i) < k || (Members(s, i) == k && i == s.top && Quiet(s))))
  }

  ghost predicate ParentsFirst(nodes: seq<Node>) {
    forall i | 0 <= i < |nodes| :: NIL <= nodes[i].parent < i
  }

  /** What both kinds of moves do to the values that are being read, and to the kids of value `i`. */
  lemma TakenMoves(s: State, y: State, i: int)
    requires ParentsFirst(s.nodes) && NIL <= s.top < Live(s) && 0 <= i < Live(s) <= |s.nodes|
    requires Stays(s, y) || Makes(s, y)
    requires Makes(s, y) ==> s.nodes[Live(s)].parent == s.top
    ensures Live(s) <= Live(y) <= |y.nodes| == |s.nodes| && Bones(y.nodes)[i] == Bones(s.nodes)[i]
    ensures Open(Bones(y.nodes), y.top, i) <==> Open(Bones(s.nodes), s.top, i)
  {
    hide Kids;
    if !Stays(s, y) {
      OpenSame(Bones(s.nodes), Bones(y.nodes), s.top, i);
    }
  }

  lemma JoinedMoves(y: State, t: State, i: int)
    requires ParentsFirst(y.nodes) && 0 <= y.top < |y.nodes| && 0 <= i < |y.nodes|
    requires Joins(y, t) && y.nodes[y.top].parent >= 0
    ensures |t.nodes| == |y.nodes| && t.top == y.nodes[y.top].parent && Live(t) == Live(y)
    ensures Bones(t.nodes)[i].kids == Bones(y.nodes)[i].kids + (if i == t.top then [y.top] else [])
    ensures Open(Bones(y.nodes), y.top, i) <==> i == y.top || Open(Bones(t.nodes), t.top, i)
  {
    hide Kids;
    OpenSame(Bones(y.nodes), Bones(t.nodes), t.top, i);
  }

  lemma SimParents(json: Text, s1: State, s2: State, f: seq<Node>)
    requires WF(json, s1) && Sim(s1, s2, f) && Tree(f)
    ensures ParentsFirst(s2.nodes) && forall i | 0 <= i < |s2.nodes| :: i < |f| && s2.nodes[i].kind == f[i].kind
  {
    hide ChainNamed, Named, NodeSim, TopNamed;
    forall i | 0 <= i < |f|
      ensures s2.nodes[i].parent == f[i].parent && s2.nodes[i].kind == f[i].kind
    {
      if i < |s1.nodes| {
        assert NodeSim(s1.nodes[i], s2.nodes[i], f[i], if i == s1.top then Writing(s1) else NIL);
        KindOf(s1.nodes[i], s2.nodes[i], f[i], if i == s1.top then Writing(s1) else NIL);
      }
    }
  }

  lemma ParentsStay(s: State, y: State)
    requires ParentsFirst(s.nodes) && 0 <= Live(s) <= |s.nodes| && (Stays(s, y) || Makes(s, y))
    ensures ParentsFirst(y.nodes)
  {
    hide Kids;
    forall i | 0 <= i < |y.nodes|
      ensures y.nodes[i].parent == s.nodes[i].parent
    {
      assert Bones(y.nodes)[i].parent == Bones(s.nodes)[i].parent;
    }
  }

  /** One step of the second pass: perhaps a new value, and perhaps a value that is complete. */
  lemma MoveParts(json: Text, s1: State, s2: State, f: seq<Node>, t1: State, i: int) returns (y: State)
    requires WF(json, s1) && Sim(s1, s2, f) && Tree(f) && 0 <= i < Live(s2)
    requires Step(json, true, s1) == More(t1) && Counted(t1, f) && Step(json, false, s2).More?
    ensures var t2 := Step(json, false, s2).s;
            && (Stays(y, t2) || Joins(y, t2)) && (Stays(s2, y) || Begins(json, s2)) && ParentsFirst(y.nodes)
            && i < Live(y) <= |y.nodes| == |s2.nodes| && Bones(y.nodes)[i] == Bones(s2.nodes)[i]
            && (Open(Bones(y.nodes), y.top, i) <==> Open(Bones(s2.nodes), s2.top, i))
  {
    hide Stays, Joins, Sim, WF, Counted, Tree, HoldersHold, Untaken, Bones, Step, Live;
    SimList(json, s1, s2, f);
    SimParents(json, s1, s2, f);
    SimSame(s1, s2, f);
    WFTop(json, s1);
    y := StepMoves(json, s2);
    if Begins(json, s2) {
      BeginsBelow(json, s1, s2, f, t1);
    } else {
      NotMade(s2, y);
    }
    TakenMoves(s2, y, i);
    ParentsStay(s2, y);
  }

  /** What has no more kids to come gets none. */
  lemma StepCloses(json: Text, s1: State, s2: State, f: seq<Node>, t1: State, t2: State, i: int)
    requires WF(json, s1) && Sim(s1, s2, f) && Tree(f) && Closed(s2, i)
    requires Step(json, true, s1) == More(t1) && Counted(t1, f) && Step(json, false, s2) == More(t2)
    ensures Closed(t2, i) && Members(t2, i) == Members(s2, i)
  {
    hide Sim, WF, Counted, Tree, HoldersHold, Untaken, Bones, Makes, Step, Joined;
    if s2.flags.done {
      WFDone(json, s1, s2, f);
      StepDone(json, s2);
    } else {
      var y := MoveParts(json, s1, s2, f, t1, i);
      MoveCloses(y, t2, i);
    }
  }

  lemma WFDone(json: Text, s1: State, s2: State, f: seq<Node>)
    requires WF(json, s1) && Sim(s1, s2, f) && s2.flags.done
    ensures !s2.flags.inString
  {
  }

  lemma StepDone(json: Text, s: State)
    requires s.flags.done && !s.flags.inString && Step(json, false, s).More?
    ensures Step(json, false, s).s == On(s)
  {
  }

  lemma MoveCloses(y: State, t: State, i: int)
    requires ParentsFirst(y.nodes) && 0 <= i < |y.nodes| && i < Live(y) && !Open(Bones(y.nodes), y.top, i)
    requires Stays(y, t) || Joins(y, t)
    ensures Closed(t, i) && Members(t, i) == |Bones(y.nodes)[i].kids|
  {
    hide Kids;
    if !Stays(y, t) && y.nodes[y.top].parent >= 0 {
      JoinedMoves(y, t, i);
    }
  }

  /** So it ends with the kids it has. */
  lemma {:induction false} RunCloses(json: Text, s1: State, s2: State, f: seq<Node>, i: int) returns (e2: State)
    requires WF(json, s1) && Sim(s1, s2, f) && Tree(f) && Closed(s2, i)
    requires Run(json, true, s1).Accepted? && Run(json, true, s1).s.nodes == f
    ensures Run(json, false, s2) == Accepted(e2) && i < |e2.nodes| && |Kids(e2.nodes[i])| == Members(s2, i)
    decreases Measure(json, s1)
  {
    hide Step, Measure, Sim, WF, Tree, Kept, Counted, Run, Kids, Open, Live;
    StepSound(json, s1);
    WFTop(json, s1);
    RunOn(json, true, s1);
    MeasureSim(json, s1, s2, f);
    RunOn(json, false, s2);
    match Step(json, true, s1)
    case Finished(_) =>
      DoneSim(json, s1, s2, f);
      RunEnds(json, false, s2);
      e2 := s2;
    case More(t1) =>
      RunCounts(json, t1);
      var u1, t2 := PairStep(json, s1, s2, f, t1);
      StepCloses(json, s1, s2, f, t1, t2, i);
      WFTop(json, u1);
      MeasureSim(json, u1, t2, f);
      NonNegative(json, u1);
      e2 := RunCloses(json, u1, t2, f, i);
  }

  lemma MembersLength(json: Text, s1: State, s2: State, f: seq<Node>, i: int)
    requires WF(json, s1) && Sim(s1, s2, f) && Counted(s1, f) && 0 <= i < |s1.nodes| && i < |f| && f[i].kind == Object
    ensures i < |s2.nodes| && Members(s2, i) == s1.nodes[i].length && s1.nodes[i].kind == Object
  {
    hide ChainNamed, Named, Tree, ChainRoom, Room;
    assert Grown(s1.nodes[i], f[i], s1.flags.inString && i == s1.top, InNumber(s1) && i == s1.top);
    assert NodeSim(s1.nodes[i], s2.nodes[i], f[i], if i == s1.top then Writing(s1) else NIL);
    ObjectLength(s1.nodes[i], s2.nodes[i], f[i], if i == s1.top then Writing(s1) else NIL);
  }

  lemma ObjectLength(a: Node, n: Node, f: Node, w: int)
    requires NodeSim(a, n, f, w) && f.kind == Object && a.length <= f.length
    ensures n.kind == a.kind == Object && |Kids(n)| == a.length
  {
  }

  /** A value that is no object is not begun with a brace. */
  lemma ObjectBegins(json: Text, s1: State, f: seq<Node>, t1: State)
    requires WF(json, s1) && Begins(json, s1) && Step(json, true, s1) == More(t1) && Counted(t1, f)
    ensures |s1.nodes| < |f| && (f[|s1.nodes|].kind == Object ==> ByteAt(json, s1.ptr) == 123)
  {
    hide Tree, ChainRoom, Room, Reads, SkipNumber;
    if ByteAt(json, s1.ptr) != 123 {
      NewObject(json, s1, t1);
    } else {
      NewBraced(json, s1, t1);
    }
    var i := |s1.nodes|;
    assert Grown(t1.nodes[i], f[i], t1.flags.inString && i == t1.top, InNumber(t1) && i == t1.top);
  }

  lemma NewObject(json: Text, s: State, t: State)
    requires NIL <= s.top < |s.nodes| && Begins(json, s) && ByteAt(json, s.ptr) != 123 && Step(json, true, s) == More(t)
    ensures |t.nodes| == |s.nodes| + 1 && t.nodes[|s.nodes|].kind != Object
  {
    hide Reads, SkipNumber;
  }

  lemma NewBraced(json: Text, s: State, t: State)
    requires Begins(json, s) && ByteAt(json, s.ptr) == 123 && Step(json, true, s) == More(t)
    ensures |t.nodes| == |s.nodes| + 1
  {
  }

  /** A brace is read, and then a name is awaited. */
  lemma BraceOpens(json: Text, s: State)
    requires Begins(json, s) && ByteAt(json, s.ptr) == 123 && !s.flags.escaped && Step(json, false, s).More?
    ensures var t := Step(json, false, s).s; Quiet(t) && t.top == Live(s) < |t.nodes| && Live(t) == Live(s) + 1
    ensures var t := Step(json, false, s).s; t.nodes[t.top].kind == Object ==> Kids(t.nodes[t.top]) == []
  {
  }

  /** Where the next name of an object is awaited it stays so until it is begun, or the object ends. */
  lemma QuietStep(json: Text, s: State)
    requires Quiet(s) && HasTop(s) && Top(s).kind == Object && !NameHere(json, s) && Step(json, false, s).More?
    ensures var t := Step(json, false, s).s;
            (Quiet(t) && t.top == s.top) || t.flags.done || t.top == Top(s).parent
  {
    hide Next;
    if ByteAt(json, s.ptr) == 125 {
      NextUp(s.(flags := s.flags.(needComma := false)), false);
    }
  }

  lemma NextUp(s: State, reproc: bool)
    ensures Next(false, s, reproc).More? ==>
              var t := Next(false, s, reproc).s; HasTop(s) && (t.flags.done || t.top == Top(s).parent)
  {
  }

  /** After a comma is asked for, an object awaits its next name. */
  lemma NowQuiet(json: Text, s: State)
    requires WF(json, s) && HasTop(s) && Top(s).kind == Object && s.flags.needComma && !s.flags.done
    ensures Quiet(s)
  {
  }

  lemma NewToCome(json: Text, s1: State, s2: State, f: seq<Node>, t1: State, u1: State, t2: State, i: int, k: nat)
    requires WF(json, s1) && WF(json, u1) && Sim(s1, s2, f) && Sim(u1, t2, f) && Tree(f)
    requires 0 <= i < |f| && f[i].kind == Object && Live(s2) <= i
    requires Step(json, true, s1) == More(t1) && Counted(t1, f) && Step(json, false, s2) == More(t2)
    ensures i < |t2.nodes| && ToCome(t2, i, k)
  {
    hide Step, WF, Counted, Tree, Sim, HoldersHold, Untaken, Joined, Bones, Quiet, Kids;
    SimList(json, s1, s2, f);
    SimList(json, u1, t2, f);
    SimParents(json, u1, t2, f);
    SimSame(s1, s2, f);
    SameHere(s1, s2);
    var y := StepMoves(json, s2);
    if Begins(json, s2) && Live(s2) == i {
      ObjectBegins(json, s1, f, t1);
      NotEscaped(json, s1, s2);
      BraceOpens(json, s2);
      QuietDone(t2);
      BoneAt(t2.nodes, i);
    }
  }

  lemma NotEscaped(json: Text, s1: State, s2: State)
    requires WF(json, s1) && s2.flags == s1.flags && ValueHere(s1)
    ensures !s2.flags.escaped
  {
  }

  lemma QuietDone(s: State)
    requires Quiet(s)
    ensures !s.flags.done
  {
  }

  lemma BoneAt(nodes: seq<Node>, i: int)
    requires 0 <= i < |nodes|
    ensures |Bones(nodes)| == |nodes| && Bones(nodes)[i] == BoneOf(nodes[i])
  {
    hide Kids;
  }

  lemma OpenToCome(json: Text, s1: State, s2: State, f: seq<Node>, t1: State, u1: State, t2: State, i: int, k: nat)
    requires WF(json, s1) && WF(json, u1) && Sim(s1, s2, f) && Sim(u1, t2, f) && Tree(f)
    requires 0 <= i < |f| == |s2.nodes| && f[i].kind == Object && i < Live(s2) && ToCome(s2, i, k)
    requires !(NameHere(json, s2) && s2.top == i && Members(s2, i) == k)
    requires Step(json, true, s1) == More(t1) && Counted(t1, f) && Step(json, false, s2) == More(t2)
    ensures i < |t2.nodes| && (ToCome(t2, i, k) || (Closed(t2, i) && Members(t2, i) <= k))
  {
    hide Step, WF, Counted, Tree, Sim, HoldersHold, Untaken, Bones, Quiet, Kids, Makes, NameHere, Begins, Joined;
    SimList(json, u1, t2, f);
    SimParents(json, s1, s2, f);
    SimParents(json, u1, t2, f);
    SimSame(u1, t2, f);
    var y := MoveParts(json, s1, s2, f, t1, i);
    if Joins(y, t2) && y.nodes[y.top].parent >= 0 {
      JoinedMoves(y, t2, i);
      if Open(Bones(t2.nodes), t2.top, i) {
        OpenBelow(Bones(t2.nodes), t2.top, i);
      }
      if t2.top == i && !t2.flags.done {
        FlagsNow(u1, t2, f);
        NowQuiet(json, u1);
        SameQuiet(u1, t2);
      }
    }
    if !(Members(s2, i) < k) {
      QuietNotHere(json, s2);
      QuietStep(json, s2);
    }
  }

  lemma QuietNotHere(json: Text, s: State)
    requires Quiet(s)
    ensures !Begins(json, s)
  {
  }

  lemma FlagsNow(u1: State, t2: State, f: seq<Node>)
    requires Sim(u1, t2, f) && HasTop(t2)
    ensures t2.flags == u1.flags && t2.top == u1.top && (HasTop(u1) ==> Top(u1).kind == Top(t2).kind)
  {
    hide NodesSim, ChainNamed, TopNamed;
    SimSame(u1, t2, f);
  }

  lemma SameQuiet(s: State, t: State)
    requires Quiet(s) && t.flags == s.flags
    ensures Quiet(t)
  {
  }

  /** Name `k` of value `i` is begun in state `s` of the first pass. */
  ghost predicate NameBegins(json: Text, s: State, i: int, k: int) {
    WF(json, s) && NameHere(json, s) && s.top == i && Top(s).length == k
  }

  lemma {:induction false} FindName(json: Text, s1: State, s2: State, f: seq<Node>, i: int, k: nat)
    returns (s: State, e2: State)
    requires WF(json, s1) && Sim(s1, s2, f) && Tree(f)
    requires 0 <= i < |f| == |s2.nodes| && f[i].kind == Object && k < f[i].length && ToCome(s2, i, k)
    requires Run(json, true, s1).Accepted? && Run(json, true, s1).s.nodes == f
    ensures NameBegins(json, s, i, k) && Run(json, true, s) == Run(json, true, s1)
    ensures Run(json, false, s2) == Accepted(e2)
    ensures Decode(json, s.ptr + 1, false).Meaning? && |e2.nodes| == |f|
    ensures NameIs(e2.nodes[i], k, Decode(json, s.ptr + 1, false).bytes)
    decreases Measure(json, s1)
  {
    hide Step, Measure, Sim, WF, Tree, Kept, Counted, Run, Decode, NameIs, NameHere, ToCome, Closed, Kids, Bones;
    RunCounts(json, s1);
    if NameBegins(json, s1, i, k) {
      s := s1;
      e2 := NameIsDecoded(json, s1, s2, f);
      var e := RunSim(json, s1, s2, f);
      EndLength(json, s1, e, f);
    } else {
      StepSound(json, s1);
      WFTop(json, s1);
      RunOn(json, true, s1);
      if Step(json, true, s1).Finished? {
        RunEnds(json, true, s1);
        NoneToCome(json, s1, s2, f, i, k);
      }
      var t1 := Step(json, true, s1).s;
      MeasureSim(json, s1, s2, f);
      RunOn(json, false, s2);
      RunCounts(json, t1);
      var u1, t2 := PairStep(json, s1, s2, f, t1);
      WFTop(json, u1);
      MeasureSim(json, u1, t2, f);
      NonNegative(json, u1);
      StepToCome(json, s1, s2, f, t1, u1, t2, i, k);
      if !ToCome(t2, i, k) {
        ClosedMembers(json, u1, t2, f, i);
      }
      s, e2 := FindName(json, u1, t2, f, i, k);
    }
  }

  lemma NoneToCome(json: Text, s1: State, s2: State, f: seq<Node>, i: int, k: nat)
    requires WF(json, s1) && Sim(s1, s2, f) && Tree(f) && s1.flags.done && s1.nodes == f && 0 <= i < |f| == |s2.nodes|
    ensures !ToCome(s2, i, k)
  {
    hide WF, Tree, Bones;
    SimList(json, s1, s2, f);
  }

  lemma StepToCome(json: Text, s1: State, s2: State, f: seq<Node>, t1: State, u1: State, t2: State, i: int, k: nat)
    requires WF(json, s1) && WF(json, u1) && Sim(s1, s2, f) && Sim(u1, t2, f) && Tree(f) && Counted(s1, f)
    requires 0 <= i < |f| == |s2.nodes| && f[i].kind == Object && ToCome(s2, i, k)
    requires !NameBegins(json, s1, i, k)
    requires Step(json, true, s1) == More(t1) && Counted(t1, f) && Step(json, false, s2) == More(t2)
    ensures i < |t2.nodes| == |f| && (ToCome(t2, i, k) || (Closed(t2, i) && Members(t2, i) <= k))
  {
    hide Step, WF, Counted, Tree, Sim, NameHere, ToCome, Closed, Kids, Bones;
    SimList(json, s1, s2, f);
    SimList(json, u1, t2, f);
    SimSame(s1, s2, f);
    if Live(s2) <= i {
      NewToCome(json, s1, s2, f, t1, u1, t2, i, k);
    } else {
      MembersLength(json, s1, s2, f, i);
      SameNameHere(json, s1, s2, f, i);
      OpenToCome(json, s1, s2, f, t1, u1, t2, i, k);
    }
  }

  lemma SameNameHere(json: Text, s1: State, s2: State, f: seq<Node>, i: int)
    requires Sim(s1, s2, f) && 0 <= i < |s1.nodes| && s1.nodes[i].kind == Object
    ensures NameHere(json, s2) && s2.top == i ==> NameHere(json, s1) && s1.top == i
  {
    hide NodesSim, ChainNamed, TopNamed;
  }

  /** A value that gets no more members has as many as were counted. */
  lemma ClosedMembers(json: Text, s1: State, s2: State, f: seq<Node>, i: int)
    requires WF(json, s1) && Sim(s1, s2, f) && Tree(f) && 0 <= i < |f| && f[i].kind == Object && Closed(s2, i)
    requires Run(json, true, s1).Accepted? && Run(json, true, s1).s.nodes == f
    ensures Members(s2, i) == f[i].length
  {
    hide WF, Sim, Tree, Run, Closed, Bones;
    var e2 := RunCloses(json, s1, s2, f, i);
    var e := RunSim(json, s1, s2, f);
    RunKeeps(json, s1);
    EndMembers(json, s1, e, f, i);
  }

  lemma EndMembers(json: Text, s1: State, e: State, f: seq<Node>, i: int)
    requires Run(json, true, s1).Accepted? && 0 <= i < |f| && f[i].kind == Object
    requires var e1 := Run(json, true, s1).s; e1.nodes == f && Sim(e1, e, f) && WF(json, e1) && e1.flags.done
    ensures i < |e.nodes| && |Kids(e.nodes[i])| == f[i].length
  {
    hide Run, Sim, Filled, NodeSim;
    AllFilled(Run(json, true, s1).s, e);
    FilledMembers(e.nodes[i], f[i]);
  }

  lemma FilledMembers(n: Node, f: Node)
    requires Filled(n, f) && f.kind == Object
    ensures |Kids(n)| == f.length
  {
  }

  lemma OneName(n: Node, k: int, a: seq<Byte>, b: seq<Byte>)
    requires NameIs(n, k, a)
    ensures NameIs(n, k, b) <==> b == a
  {
    if NameIs(n, k, b) {
      var at := n.slots[k].nameAt;
      forall j | 0 <= j < |a|
        ensures a[j] == b[j]
      {
        assert n.buffer[at + j] == Full((a + [0])[j]) && n.buffer[at + j] == Full((b + [0])[j]);
      }
    }
  }

  lemma AllToCome(f: seq<Node>, i: int, k: nat)
    requires Tree(f) && 0 <= i < |f|
    ensures ToCome(Start(0, f), i, k)
  {
  }

  /**
   Every name of every object of an accepted text: the bytes that its text stands
   for to the parser, which are those that it means exactly if no pair is misread.
   */
  lemma EveryName(json: Text, i: nat, k: nat) returns (s: State, e2: State)
    requires var r := Run(json, true, Start(NIL, []));
             r.Accepted? && i < |r.s.nodes| && r.s.nodes[i].kind == Object && k < r.s.nodes[i].length
    ensures var r := Run(json, true, Start(NIL, []));
            && NameBegins(json, s, i, k) && Run(json, true, s) == r
            && Run(json, false, Start(0, r.s.nodes)) == Accepted(e2) && i < |e2.nodes|
    ensures var r := Decode(json, s.ptr + 1, false); r.Meaning? && NameIs(e2.nodes[i], k, r.bytes)
    ensures var m := Meant(json, s.ptr + 1, false);
            m.Meaning? ==> (NameIs(e2.nodes[i], k, m.bytes) <==> PairsKept(json, s.ptr + 1, false))
  {
    hide Run, Tree, WF, Sim, NameIs, Decode, Meant, PairsKept, ToCome, NameHere;
    var f := Run(json, true, Start(NIL, [])).s.nodes;
    StartSims(json, Run(json, true, Start(NIL, [])).s);
    AllToCome(f, i, k);
    s, e2 := FindName(json, Start(NIL, []), Start(0, f), f, i, k);
    if Meant(json, s.ptr + 1, false).Meaning? {
      ReadAsMeant(json, s.ptr + 1, false);
      OneName(e2.nodes[i], k, Decode(json, s.ptr + 1, false).bytes, Meant(json, s.ptr + 1, false).bytes);
    }
  }
}
