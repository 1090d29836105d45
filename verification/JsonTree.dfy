/**
 The result of the JSON parser is a tree (src/json.c): the slots of an array or
 object hold the values that were read in it, all of them, in order.
 */
module JsonTree {
  import opened Bytes
  import opened Json
  import opened JsonFirstPass
  import opened JsonCounts
  import opened JsonSecondPass

  // ----- Bones: what is left of a value when only its place in the tree matters -----

  datatype Bone = Bone(parent: int, kids: seq<int>)

  function Kids(n: Node): seq<int> {
    if Holds(n.kind) && n.length <= |n.slots| then seq(n.length, k requires 0 <= k < n.length => n.slots[k].value)
        else []
  }

  function BoneOf(n: Node): Bone {
    Bone(n.parent, Kids(n))
  }

  function Bones(nodes: seq<Node>): seq<Bone> {
    seq(|nodes|, i requires 0 <= i < |nodes| => BoneOf(nodes[i]))
  }

  /** How many values the second pass has taken. */
  function Live(s: State): int {
    if s.alloc == NIL then |s.nodes| else s.alloc
  }

  /** Value `v` is `t`, or around it. */
  ghost predicate Open(b: seq<Bone>, t: int, v: int)
    decreases t
  {
    0 <= t < |b| && (v == t || (b[t].parent < t && Open(b, b[t].parent, v)))
  }

  predicate Ascending(s: seq<int>) {
    forall k, l | 0 <= k < l < |s| :: s[k] < s[l]
  }

  /** The kids of value `i` are values with this parent, in order. */
  ghost predicate OwnKids(b: seq<Bone>, i: int, live: int)
    requires 0 <= i < |b| && live <= |b|
  {
    Ascending(b[i].kids) && forall v | v in b[i].kids :: i < v < live && b[v].parent == i
  }

  /** Value `v` is still being read, or is a kid; and what is being read comes after the kids around it. */
  ghost predicate Placed(b: seq<Bone>, top: int, v: int)
    requires 0 <= v < |b|
  {
    var p := b[v].parent;
    && NIL <= p < v && (v > 0 ==> p >= 0)
    && (Open(b, top, v) || p == NIL || v in b[p].kids)
    && (Open(b, top, v) && p >= 0 ==> forall x | x in b[p].kids :: x < v)
  }

  ghost predicate Growing(b: seq<Bone>, top: int, live: int) {
    && NIL <= top < live <= |b| && (live > 0 ==> top >= 0)
    && (forall i | 0 <= i < live :: OwnKids(b, i, live) && Placed(b, top, i))
  }

  lemma {:induction false} OpenSame(b: seq<Bone>, b': seq<Bone>, t: int, v: int)
    requires |b| <= |b'| && t < |b| && forall i | 0 <= i <= t :: b'[i].parent == b[i].parent
    ensures Open(b', t, v) <==> Open(b, t, v)
    decreases t
  {
    if 0 <= t && b[t].parent < t {
      OpenSame(b, b', b[t].parent, v);
    }
  }

  lemma {:induction false} OpenBelow(b: seq<Bone>, t: int, v: int)
    requires Open(b, t, v)
    ensures 0 <= v <= t
    decreases t
  {
    if v != t {
      OpenBelow(b, b[t].parent, v);
    }
  }

  function Joined(b: seq<Bone>, top: int): seq<Bone>
    requires 0 <= top < |b| && 0 <= b[top].parent < |b|
  {
    var p := b[top].parent;
    b[p := Bone(b[p].parent, b[p].kids + [top])]
  }

  /** A value that is complete becomes a kid of the one around it. */
  lemma JoinGrows(b: seq<Bone>, top: int, live: int)
    requires Growing(b, top, live) && 0 <= top && b[top].parent >= 0
    ensures b[top].parent < |b| && Growing(Joined(b, top), b[top].parent, live)
  {
    hide OwnKids, Placed;
    assert Placed(b, top, top);
    KnowPlaced(b, top, top);
    var p := b[top].parent;
    var b' := Joined(b, top);
    forall i | 0 <= i < live
      ensures OwnKids(b', i, live) && Placed(b', p, i)
    {
      assert OwnKids(b, i, live) && Placed(b, top, i);
      JoinKids(b, top, live, i);
      OpenSame(b, b', p, i);
      if Open(b, p, i) {
        OpenBelow(b, p, i);
      }
      JoinPlaces(b, top, i);
    }
  }

  lemma KnowPlaced(b: seq<Bone>, top: int, v: int)
    requires 0 <= v < |b| && Placed(b, top, v)
    ensures NIL <= b[v].parent < v
  {
  }

  lemma JoinKids(b: seq<Bone>, top: int, live: int, i: int)
    requires 0 <= i < live <= |b| && 0 <= top < live && OwnKids(b, i, live) && Placed(b, top, top) && b[top].parent >= 0
    ensures b[top].parent < |b| && OwnKids(Joined(b, top), i, live)
  {
    var b' := Joined(b, top);
    if i == b[top].parent {
      assert Open(b, top, top);
      var kids := b[i].kids;
      forall k, l | 0 <= k < l < |kids| + 1
        ensures (kids + [top])[k] < (kids + [top])[l]
      {
        assert kids[k] in kids;
      }
    }
    assert forall v | 0 <= v < |b| :: b'[v].parent == b[v].parent;
  }

  lemma JoinPlaces(b: seq<Bone>, top: int, v: int)
    requires 0 <= v < |b| && 0 <= top < |b| && Placed(b, top, v) && Placed(b, top, top) && 0 <= b[top].parent < |b|
    requires Open(b, b[top].parent, v) ==> v <= b[top].parent
    requires Open(Joined(b, top), b[top].parent, v) <==> Open(b, b[top].parent, v)
    ensures Placed(Joined(b, top), b[top].parent, v)
  {
  }

  /** A new value is read in the one on top. */
  lemma MakeGrows(b: seq<Bone>, top: int, live: int)
    requires Growing(b, top, live) && live < |b| && b[live].parent == top
    ensures Growing(b[live := Bone(top, [])], live, live + 1)
  {
    hide OwnKids, Placed, Open;
    var b', n := b[live := Bone(top, [])], live + 1;
    assert |b'| == |b|;
    forall i | 0 <= i < n
      ensures OwnKids(b', i, n) && Placed(b', live, i)
    {
      if i < live {
        assert OwnKids(b, i, live) && Placed(b, top, i);
        MakeKids(b, top, live, i);
        OpenSame(b, b', top, i);
        MakePlaces(b, top, live, i);
      } else {
        MakeNew(b, top, live);
      }
    }
  }

  lemma MakeKids(b: seq<Bone>, top: int, live: int, i: int)
    requires 0 <= i < live < |b| && b[live].parent == top && OwnKids(b, i, live)
    ensures OwnKids(b[live := Bone(top, [])], i, live + 1)
  {
  }

  lemma MakePlaces(b: seq<Bone>, top: int, live: int, v: int)
    requires NIL <= top < live < |b| && b[live].parent == top && 0 <= v < live && Placed(b, top, v)
    requires Open(b[live := Bone(top, [])], top, v) <==> Open(b, top, v)
    ensures Placed(b[live := Bone(top, [])], live, v)
  {
  }

  lemma MakeNew(b: seq<Bone>, top: int, live: int)
    requires Growing(b, top, live) && live < |b| && b[live].parent == top
    ensures var b' := b[live := Bone(top, [])]; OwnKids(b', live, live + 1) && Placed(b', live, live)
  {
    if top >= 0 {
      assert OwnKids(b, top, live);
    }
  }

  /** The values form a tree: the kids of each are those with this parent, in order. */
  ghost predicate IsTree(nodes: seq<Node>) {
    && (forall i | 0 <= i < |nodes| :: Ascending(Kids(nodes[i])) && (i == 0 <==> nodes[i].parent == NIL))
    && forall i, v | 0 <= i < |nodes| && 0 <= v < |nodes| :: v in Kids(nodes[i]) <==> nodes[v].parent == i
  }

  lemma GrownUp(nodes: seq<Node>, top: int)
    requires Growing(Bones(nodes), top, |nodes|) && 0 <= top < |nodes| && nodes[top].parent == NIL
    ensures IsTree(nodes)
  {
    var b := Bones(nodes);
    assert Placed(b, top, top);
    assert top == 0;
    forall i | 0 <= i < |nodes|
      ensures Ascending(Kids(nodes[i])) && (i == 0 <==> nodes[i].parent == NIL)
    {
      assert OwnKids(b, i, |nodes|) && Placed(b, top, i);
    }
    forall i, v | 0 <= i < |nodes| && 0 <= v < |nodes|
      ensures v in Kids(nodes[i]) <==> nodes[v].parent == i
    {
      assert OwnKids(b, i, |nodes|) && Placed(b, top, v);
      if Open(b, top, v) {
        OpenBelow(b, top, v);
      }
    }
  }

  // ----- The steps of the second pass -----

  /** Whatever else has changed, no value has. */
  predicate Stays(s: State, t: State) {
    Bones(t.nodes) == Bones(s.nodes) && t.top == s.top && Live(t) == Live(s)
  }

  /** The value on top is complete. */
  predicate Joins(s: State, t: State) {
    HasTop(s) && Live(t) == Live(s) && t.flags.needComma &&
    var p := Top(s).parent;
    if p == NIL then Bones(t.nodes) == Bones(s.nodes) && t.top == s.top
    else 0 <= p < |s.nodes| && Bones(t.nodes) == Joined(Bones(s.nodes), s.top) && t.top == p
  }

  /** The next value of the list is taken. */
  predicate Makes(s: State, t: State) {
    var i := Live(s);
    && 0 <= i < |s.nodes| && Bones(t.nodes) == Bones(s.nodes)[i := Bone(s.nodes[i].parent, [])]
    && t.top == i && Live(t) == i + 1
  }

  predicate Moves(s: State, y: State, t: State) {
    (Stays(s, y) || Makes(s, y)) && (Stays(y, t) || Joins(y, t))
  }

  /** What the values around others are. */
  ghost predicate HoldersHold(nodes: seq<Node>) {
    forall i | 0 <= i < |nodes| && nodes[i].parent != NIL ::
      0 <= nodes[i].parent < |nodes| && Holds(nodes[nodes[i].parent].kind)
  }

  lemma TopStays(s: State, n: Node)
    requires HasTop(s) && n.parent == Top(s).parent && Kids(n) == Kids(Top(s))
    ensures Stays(s, WithTop(s, n))
  {
    hide Kids;
  }

  lemma {:induction false} AddStays(s: State, bytes: seq<Byte>)
    ensures Add(false, s, bytes).More? ==> Stays(s, Add(false, s, bytes).s)
    decreases |bytes|
  {
    hide Stays;
    StaysSelf(s);
    if bytes != [] && Write(s, bytes[0]).More? {
      var s' := Write(s, bytes[0]).s;
      WriteStays(s, bytes[0]);
      AddStays(s'.(stringLength := s'.stringLength + 1), bytes[1..]);
      if Add(false, s, bytes).More? {
        StaysOn(s, s', Add(false, s, bytes).s);
      }
    }
  }

  lemma StaysSelf(s: State)
    ensures Stays(s, s)
  {
  }

  lemma StaysOn(s: State, s': State, t: State)
    requires Stays(s, s')
    ensures Stays(s'.(stringLength := s'.stringLength + 1), t) ==> Stays(s, t)
  {
  }

  lemma WriteStays(s: State, b: Byte)
    ensures Write(s, b).More? ==> Stays(s, Write(s, b).s)
  {
    hide Stays;
    if Write(s, b).More? {
      var n := Top(s);
      TopStays(s, n.(buffer := n.buffer[StringBase(n) + s.stringLength := Full(b)]));
    }
  }

  lemma NextJoins(s: State, reproc: bool)
    requires HoldersHold(s.nodes)
    ensures Next(false, s, reproc).More? ==> Joins(s, Next(false, s, reproc).s)
  {
    if Next(false, s, reproc).More? && Top(s).parent != NIL {
      var p := Top(s).parent;
      var n := s.nodes[p];
      var n' := n.(slots := n.slots[n.length := n.slots[n.length].(value := s.top)], length := n.length + 1);
      assert Kids(n') == Kids(n) + [s.top];
      assert Next(false, s, reproc).s.nodes == s.nodes[p := n'];
      assert Bones(s.nodes[p := n']) == Bones(s.nodes)[p := BoneOf(n')];
    }
  }

  lemma NewMakes(s: State, kind: Kind)
    requires forall i | Live(s) <= i < |s.nodes| :: i >= 0 ==> Raw(s.nodes[i])
    ensures NewValue(false, s, kind).More? ==> Makes(s, NewValue(false, s, kind).s)
  {
    if NewValue(false, s, kind).More? {
      var n := Allocated(s.nodes[s.alloc]);
      assert BoneOf(n) == Bone(s.nodes[s.alloc].parent, []);
      assert Bones(s.nodes[s.alloc := n]) == Bones(s.nodes)[s.alloc := BoneOf(n)];
    }
  }

  lemma HoldersSame(a: seq<Node>, b: seq<Node>)
    requires HoldersHold(a) && |a| == |b| && forall i | 0 <= i < |a| ::
             b[i].parent == a[i].parent && b[i].kind == a[i].kind
    ensures HoldersHold(b)
  {
  }

  /** A value begins here, unless there is only white space or an array ends. */
  predicate Begins(json: Text, s: State) {
    ValueHere(s) && !White(ByteAt(json, s.ptr)) && ByteAt(json, s.ptr) != 93
  }

  ghost predicate Untaken(s: State) {
    0 <= Live(s) <= |s.nodes| && forall i | Live(s) <= i < |s.nodes| :: Raw(s.nodes[i])
  }

  /** Every step of the second pass is one of these moves. */
  lemma StepMoves(json: Text, s: State) returns (y: State)
    requires Step(json, false, s).More? && HoldersHold(s.nodes) && Untaken(s) && !InNumber(s)
    ensures Moves(s, y, Step(json, false, s).s) && (Stays(s, y) || Begins(json, s))
  {
    hide Next, StringStep, ValueStep, Bones, Joined, HoldersHold;
    var b := ByteAt(json, s.ptr);
    y := s;
    if s.flags.inString {
      y := StringMoves(json, s);
    } else if s.flags.done {
    } else if s.flags.seekValue {
      if White(b) {
      } else if b == 93 {
        NextJoins(s.(flags := s.flags.(needComma := false, seekValue := false)), false);
      } else if !s.flags.needComma && !s.flags.needColon {
        y := ValueMoves(json, s.(flags := s.flags.(seekValue := false)));
      }
    } else if !White(b) && b == 125 {
      NextJoins(s.(flags := s.flags.(needComma := false)), false);
    }
  }

  lemma StringMoves(json: Text, s: State) returns (y: State)
    requires StringStep(json, false, s, ByteAt(json, s.ptr)).More? && HoldersHold(s.nodes)
    ensures var t := StringStep(json, false, s, ByteAt(json, s.ptr)).s;
            Stays(s, y) && (Stays(y, t) || Joins(y, t))
  {
    hide Next, EndString, Add, Bones, Joined, HoldersHold, UnicodeEscape, Unescaped;
    var b := ByteAt(json, s.ptr);
    y := s;
    if s.flags.escaped {
      var s' := s.(flags := s.flags.(escaped := false));
      if b == 117 {
        var e := UnicodeEscape(json, s.ptr);
        AddStays(s'.(ptr := e.ptr), e.bytes);
      } else {
        AddStays(s', [Unescaped(b)]);
      }
    } else if b == 34 {
      y := EndMoves(s);
    } else if b != 92 {
      AddStays(s, [b]);
    }
  }

  lemma EndMoves(s: State) returns (y: State)
    requires EndString(false, s).More? && HoldersHold(s.nodes)
    ensures var t := EndString(false, s).s;
            Stays(s, y) && (Stays(y, t) || Joins(y, t))
  {
    hide Next, Bones, Joined, HoldersHold, Kids, Write;
    WriteStays(s, 0);
    WriteTop(s, 0);
    var u := Write(s, 0).s.(flags := s.flags.(inString := false));
    var n := Top(u);
    if n.kind == Str {
      y := WithTop(u, n.(length := s.stringLength));
      KidsSame(n, Top(y));
      TopStays(u, Top(y));
      HoldersSame(s.nodes, y.nodes);
      NextJoins(y, false);
    } else {
      y := s;
      var n' := n.(slots := n.slots[n.length :=
          n.slots[n.length].(nameAt := n.objectMem, nameLength := s.stringLength)],
                   objectMem := n.objectMem + s.stringLength + 1);
      KidsSame(n, n');
      TopStays(u, n');
    }
  }

  lemma WriteTop(s: State, b: Byte)
    requires Write(s, b).More?
    ensures var t := Write(s, b).s;
            HasTop(s) && t == WithTop(s, Top(t)) && HasTop(t) && t.nodes[t.top] == Top(s).(buffer := Top(t).buffer)
  {
  }

  /** Names, lengths of strings and the like are not seen. */
  lemma KidsSame(n: Node, n': Node)
    requires n'.kind == n.kind && (Holds(n.kind) ==> n'.length == n.length && |n'.slots| == |n.slots|)
    requires Holds(n.kind) ==> forall k | 0 <= k < |n.slots| :: n'.slots[k].value == n.slots[k].value
    ensures Kids(n') == Kids(n)
  {
  }

  lemma ValueMoves(json: Text, s: State) returns (y: State)
    requires ValueStep(json, false, s, ByteAt(json, s.ptr)).More? && HoldersHold(s.nodes) && Untaken(s)
    ensures var t := ValueStep(json, false, s, ByteAt(json, s.ptr)).s;
            Makes(s, y) && (Stays(y, t) || Joins(y, t))
  {
    hide Next, Bones, Joined, HoldersHold, Kids, NewValue, Literal, Reads, SkipNumber, Makes, Joins;
    var b := ByteAt(json, s.ptr);
    if b == 123 {
      y := Made(s, Object);
    } else if b == 91 {
      y := Made(s.(flags := s.flags.(seekValue := true)), Array);
      MakesSame(s, s.(flags := s.flags.(seekValue := true)), y);
    } else if b == 34 {
      y := Made(s.(flags := s.flags.(inString := true), stringLength := 0), Str);
      MakesSame(s, s.(flags := s.flags.(inString := true), stringLength := 0), y);
    } else if b == 116 {
      y := LiteralMoves(s, 3, Boolean, true);
    } else if b == 102 {
      y := LiteralMoves(s, 4, Boolean, false);
    } else if b == 110 {
      y := LiteralMoves(s, 3, Null, false);
    } else {
      var z := Made(s, Integer);
      y := z.(ptr := SkipNumber(json, s.ptr));
      MakesSame'(s, z, y);
      NextJoins(y, true);
    }
  }

  lemma Made(s: State, kind: Kind) returns (y: State)
    requires NewValue(false, s, kind).More? && HoldersHold(s.nodes) && Untaken(s)
    ensures NewValue(false, s, kind) == More(y) && Makes(s, y) && HoldersHold(y.nodes) && HasTop(y)
  {
    y := NewValue(false, s, kind).s;
    NewMakes(s, kind);
    HoldersSame(s.nodes, y.nodes);
  }

  lemma MakesSame(s: State, s': State, y: State)
    requires Makes(s', y) && s'.nodes == s.nodes && s'.alloc == s.alloc
    ensures Makes(s, y)
  {
    hide Bones;
  }

  lemma MakesSame'(s: State, y: State, y': State)
    requires Makes(s, y) && y'.nodes == y.nodes && y'.alloc == y.alloc && y'.top == y.top
    ensures Makes(s, y')
  {
    hide Bones;
  }

  lemma LiteralMoves(s: State, n: nat, kind: Kind, value: bool) returns (y: State)
    requires Literal(false, s, n, kind, value).More? && HoldersHold(s.nodes) && Untaken(s)
    ensures Makes(s, y) && Joins(y, Literal(false, s, n, kind, value).s)
  {
    hide Next, Bones, Joined, HoldersHold, Kids, NewValue, Untaken;
    var z := Made(s, kind);
    var x := WithTop(z, Top(z).(boolean := value)).(ptr := s.ptr + n);
    KidsSame(Top(z), Top(x));
    TopStays(z, Top(z).(boolean := value));
    HoldersSame(z.nodes, x.nodes);
    NextJoins(x, false);
    y := x;
  }

  // ----- Whole passes -----

  /** A value that begins is, in the list, one of the value on top. */
  lemma BeginsBelow(json: Text, s1: State, s2: State, f: seq<Node>, t1: State)
    requires WF(json, s1) && Sim(s1, s2, f) && Begins(json, s1) && Step(json, true, s1) == More(t1) && Counted(t1, f)
    ensures |s1.nodes| < |s2.nodes| && s2.nodes[|s1.nodes|].parent == s2.top
  {
    hide Next, Reads, SkipNumber, Tree, ChainRoom, Room, ChainNamed, Named;
    var i := |s1.nodes|;
    NewParent(json, s1, t1);
    assert Grown(t1.nodes[i], f[i], t1.flags.inString && i == t1.top, InNumber(t1) && i == t1.top);
  }

  lemma NewParent(json: Text, s: State, t: State)
    requires NIL <= s.top < |s.nodes| && Begins(json, s) && Step(json, true, s) == More(t)
    ensures |t.nodes| == |s.nodes| + 1 && t.nodes[|s.nodes|].parent == s.top
  {
    hide Reads, SkipNumber;
  }

  /** The second pass holds a growing tree of the values it has taken. */
  ghost predicate GrowingTree(s: State) {
    Growing(Bones(s.nodes), s.top, Live(s))
  }

  lemma SimList(json: Text, s1: State, s2: State, f: seq<Node>)
    requires WF(json, s1) && Sim(s1, s2, f) && Tree(f)
    ensures HoldersHold(s2.nodes) && Untaken(s2) && !InNumber(s2) && Live(s2) == |s1.nodes| && |s2.nodes| == |f| &&
            s2.top == s1.top
  {
    hide ChainNamed, Named, NodeSim, TopNamed;
    SameTop(s1, s2, f);
    forall i | 0 <= i < |f|
      ensures s2.nodes[i].parent == f[i].parent && s2.nodes[i].kind == f[i].kind
    {
      if i < |s1.nodes| {
        assert NodeSim(s1.nodes[i], s2.nodes[i], f[i], if i == s1.top then Writing(s1) else NIL);
        KindOf(s1.nodes[i], s2.nodes[i], f[i], if i == s1.top then Writing(s1) else NIL);
      }
    }
    HoldersSame(f, s2.nodes);
  }

  lemma KindOf(a: Node, n: Node, f: Node, w: int)
    requires NodeSim(a, n, f, w)
    ensures n.parent == f.parent && n.kind == f.kind
  {
  }

  lemma MoveGrows(s: State, y: State, t: State)
    requires GrowingTree(s) && Moves(s, y, t)
    requires Makes(s, y) ==> s.nodes[Live(s)].parent == s.top
    ensures GrowingTree(t)
  {
    hide Growing, Kids;
    if !Stays(s, y) {
      MakeGrows(Bones(s.nodes), s.top, Live(s));
    }
    if !Stays(y, t) && Top(y).parent != NIL {
      JoinGrows(Bones(y.nodes), y.top, Live(y));
    }
  }

  lemma PairGrows(json: Text, s1: State, s2: State, f: seq<Node>, t1: State, t2: State)
    requires WF(json, s1) && Sim(s1, s2, f) && Tree(f) && GrowingTree(s2)
    requires Step(json, true, s1) == More(t1) && Counted(t1, f) && Step(json, false, s2) == More(t2)
    ensures GrowingTree(t2)
  {
    hide Step, GrowingTree, Stays, Joins, Sim, WF, Counted, Tree, HoldersHold, Untaken, Live;
    SimList(json, s1, s2, f);
    SimSame(s1, s2, f);
    var y := StepMoves(json, s2);
    if Begins(json, s2) {
      BeginsBelow(json, s1, s2, f, t1);
    } else {
      NotMade(s2, y);
    }
    MoveGrows(s2, y, t2);
  }

  lemma NotMade(s: State, y: State)
    requires Stays(s, y)
    ensures !Makes(s, y)
  {
  }

  /** The result of the second pass is a tree. */
  lemma {:induction false} RunGrows(json: Text, s1: State, s2: State, f: seq<Node>) returns (e2: State)
    requires WF(json, s1) && Sim(s1, s2, f) && Tree(f) && GrowingTree(s2)
    requires Run(json, true, s1).Accepted? && Run(json, true, s1).s.nodes == f
    ensures Run(json, false, s2) == Accepted(e2) && IsTree(e2.nodes)
    decreases Measure(json, s1)
  {
    hide Step, Measure, Sim, WF, Tree, Kept, Counted, GrowingTree, IsTree, Run;
    StepSound(json, s1);
    WFTop(json, s1);
    RunOn(json, true, s1);
    MeasureSim(json, s1, s2, f);
    RunOn(json, false, s2);
    match Step(json, true, s1)
    case Finished(_) =>
      DoneSim(json, s1, s2, f);
      RunEnds(json, true, s1);
      RunEnds(json, false, s2);
      EndGrown(json, s1, s2, f);
      e2 := s2;
    case More(t1) =>
      RunCounts(json, t1);
      var u1, t2 := PairStep(json, s1, s2, f, t1);
      PairGrows(json, s1, s2, f, t1, t2);
      WFTop(json, u1);
      MeasureSim(json, u1, t2, f);
      NonNegative(json, u1);
      e2 := RunGrows(json, u1, t2, f);
  }

  lemma RunEnds(json: Text, first: bool, s: State)
    requires Step(json, first, s).Finished?
    ensures Run(json, first, s) == Accepted(Step(json, first, s).s)
  {
    hide Step;
  }

  lemma EndGrown(json: Text, s1: State, s2: State, f: seq<Node>)
    requires WF(json, s1) && Sim(s1, s2, f) && Tree(f) && GrowingTree(s2) && s1.flags.done && s1.nodes == f
    ensures IsTree(s2.nodes)
  {
    hide Growing, IsTree, ChainNamed, NodeSim, Tree, Bones;
    SimList(json, s1, s2, f);
    assert NodeSim(s1.nodes[s1.top], s2.nodes[s1.top], f[s1.top], if s1.top == s1.top then Writing(s1) else NIL);
    KindOf(s1.nodes[s1.top], s2.nodes[s1.top], f[s1.top], Writing(s1));
    GrownUp(s2.nodes, s2.top);
  }

  lemma NothingGrown(f: seq<Node>)
    requires Tree(f) && f != []
    ensures GrowingTree(Start(0, f))
  {
  }

  /** The values of an accepted text form a tree, in which each holds its own values in the order of the text. */
  lemma ResultIsTree(json: Text) returns (e2: State)
    requires Run(json, true, Start(NIL, [])).Accepted?
    ensures Run(json, false, Start(0, Run(json, true, Start(NIL, [])).s.nodes)) == Accepted(e2) && IsTree(e2.nodes)
  {
    hide Run, Tree, WF, Sim, GrowingTree, IsTree;
    var f := Run(json, true, Start(NIL, [])).s.nodes;
    StartSims(json, Run(json, true, Start(NIL, [])).s);
    RunKeeps(json, Start(NIL, []));
    NothingGrown(f);
    e2 := RunGrows(json, Start(NIL, []), Start(0, f), f);
  }
}
