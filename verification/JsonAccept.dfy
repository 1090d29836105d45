/**
 Which texts the JSON parser accepts, and what it makes of them (src/json.c): every
 value that is written down is read back.
 */
module JsonAccept {
  import opened Bytes
  import opened Decimals
  import opened Escape
  import opened Json
  import opened JsonFirstPass
  import opened JsonCounts
  import opened JsonSecondPass
  import opened JsonText
  import opened JsonNames
  import opened JsonValues
  import opened JsonNumbers
  import opened JsonSteps
  import JsonPrint

  // ----- The values in the list of the first pass -----

  /** How many values of the list it takes. */
  function Count(v: Value): (n: nat)
    ensures n > 0
  {
    match v
    case List(_, items) => 1 + CountItems(items)
    case Record(_, members) => 1 + CountMembers(members)
    case _ => 1
  }

  function CountItems(items: seq<Item>): nat {
    if items == [] then 0 else Count(items[0].value) + CountItems(items[1..])
  }

  function CountMembers(members: seq<Member>): nat {
    if members == [] then 0 else Count(members[0].item.value) + CountMembers(members[1..])
  }

  /** From number `i` on the list has this value in it, and the values in that right behind. */
  ghost predicate Laid(nodes: seq<Node>, i: int, parent: int, v: Value)
    decreases v
  {
    0 <= i && i + Count(v) <= |nodes| && nodes[i].parent == parent &&
    match v
    case NullValue => nodes[i].kind == Kind.Null
    case Truth(_) => nodes[i].kind == Kind.Boolean
    case Number(m) =>
      if IsInteger(m) then
        nodes[i].kind == Integer && nodes[i].integer == (if m.negative then 0 - m.whole else m.whole)
      else nodes[i].kind == Double
    case Quoted(_) => nodes[i].kind == Kind.Str
    case List(_, items) =>
      nodes[i].kind == Kind.Array && nodes[i].length == |items| && LaidItems(nodes, i + 1, i, items)
    case Record(_, members) =>
      nodes[i].kind == Kind.Object && nodes[i].length == |members| && LaidMembers(nodes, i + 1, i, members)
  }

  ghost predicate LaidItems(nodes: seq<Node>, i: int, parent: int, items: seq<Item>)
    decreases items
  {
    items == [] ||
    (Laid(nodes, i, parent, items[0].value) && LaidItems(nodes, i + Count(items[0].value), parent, items[1..]))
  }

  ghost predicate LaidMembers(nodes: seq<Node>, i: int, parent: int, members: seq<Member>)
    decreases members
  {
    members == [] ||
    (Laid(nodes, i, parent, members[0].item.value)
     && LaidMembers(nodes, i + Count(members[0].item.value), parent, members[1..]))
  }

  /** From `i` to `j` the lists are the same. */
  predicate Same(a: seq<Node>, b: seq<Node>, i: int, j: int) {
    0 <= i && j <= |a| && j <= |b| && forall k | i <= k < j :: a[k] == b[k]
  }

  lemma {:induction false} LaidSame(a: seq<Node>, b: seq<Node>, i: int, parent: int, v: Value)
    requires Laid(a, i, parent, v) && Same(a, b, i, i + Count(v))
    ensures Laid(b, i, parent, v)
    decreases v
  {
    match v
    case List(_, items) => LaidItemsSame(a, b, i + 1, i, items);
    case Record(_, members) => LaidMembersSame(a, b, i + 1, i, members);
    case _ =>
  }

  lemma {:induction false} LaidItemsSame(a: seq<Node>, b: seq<Node>, i: int, parent: int, items: seq<Item>)
    requires LaidItems(a, i, parent, items) && Same(a, b, i, i + CountItems(items))
    ensures LaidItems(b, i, parent, items)
    decreases items
  {
    if items != [] {
      LaidSame(a, b, i, parent, items[0].value);
      LaidItemsSame(a, b, i + Count(items[0].value), parent, items[1..]);
    }
  }

  lemma {:induction false} LaidMembersSame(a: seq<Node>, b: seq<Node>, i: int, parent: int, members: seq<Member>)
    requires LaidMembers(a, i, parent, members) && Same(a, b, i, i + CountMembers(members))
    ensures LaidMembers(b, i, parent, members)
    decreases members
  {
    if members != [] {
      LaidSame(a, b, i, parent, members[0].item.value);
      LaidMembersSame(a, b, i + Count(members[0].item.value), parent, members[1..]);
    }
  }

  // ----- What the second pass writes -----

  /** Truth values, strings and names are what was written. */
  ghost predicate Told(nodes: seq<Node>, i: int, v: Value)
    decreases v
  {
    0 <= i < |nodes| &&
    match v
    case Truth(truth) => nodes[i].boolean == truth
    case Quoted(raw) => IsText(nodes[i], Contents(raw))
    case List(_, items) => ToldItems(nodes, i + 1, items)
    case Record(_, members) => ToldMembers(nodes, i, 0, i + 1, members)
    case _ => true
  }

  ghost predicate ToldItems(nodes: seq<Node>, i: int, items: seq<Item>)
    decreases items
  {
    items == [] || (Told(nodes, i, items[0].value) && ToldItems(nodes, i + Count(items[0].value), items[1..]))
  }

  /** The members of value `p` from number `k` on. */
  ghost predicate ToldMembers(nodes: seq<Node>, p: int, k: nat, i: int, members: seq<Member>)
    decreases members
  {
    members == [] ||
    (0 <= p < |nodes| && NameIs(nodes[p], k, Contents(members[0].name)) && Told(nodes, i, members[0].item.value)
     && ToldMembers(nodes, p, k + 1, i + Count(members[0].item.value), members[1..]))
  }

  ghost predicate Known(json: Text, s: State, i: int, v: Value) {
    Run(json, true, s).Accepted? ==> Told(Final(json, Run(json, true, s)), i, v)
  }

  // ----- Over one value -----

  predicate Awaits(s: State) {
    ValueHere(s) && (HasTop(s) ==> Top(s).length < COUNTER_MAX)
  }

  function AfterFlags(s: State): Flags {
    Flags(needComma := true, seekValue := HasTop(s) && Top(s).kind == Kind.Array, escaped := false, inString := false,
          needColon := false, done := !HasTop(s))
  }

  /** Behind the values that were there, nothing but the one on top has changed: it has got `n` more. */
  predicate Grew(s: State, t: State, n: nat) {
    && HasTop(s) && t.top == s.top && |s.nodes| <= |t.nodes|
    && t.nodes[..|s.nodes|]
       == s.nodes[s.top := Top(s).(length := Top(s).length + n, keyBytes := t.nodes[s.top].keyBytes)]
  }

  ghost predicate Read(s: State, t: State, v: Value, q: int) {
    && t.ptr == q && t.flags == AfterFlags(s)
    && |t.nodes| == |s.nodes| + Count(v) && Laid(t.nodes, |s.nodes|, s.top, v)
    && if HasTop(s) then Grew(s, t, 1) else t.top == |s.nodes|
  }

  /** The value is read to its end; or it cannot be, and the text is rejected. */
  ghost predicate Arrives(json: Text, s: State, t: State, v: Value) {
    if Readable(v) then
      Leads(json, s, t) && Read(s, t, v, s.ptr + |Written(v)|) && Known(json, s, |s.nodes|, v)
    else
      Run(json, true, s) == Rejected
  }

  /** The value on top, which is all of `v`, becomes one of the value around it. */
  lemma Closes(s: State, x: State, v: Value, reproc: bool)
    requires Awaits(s) && NIL <= s.top < |s.nodes| && x.top == |s.nodes| && |x.nodes| == |s.nodes| + Count(v)
    requires x.nodes[..|s.nodes|] == s.nodes && Laid(x.nodes, |s.nodes|, s.top, v)
    requires x.flags == Flags(x.flags.needComma, false, false, false, false, false)
    ensures var o := Next(true, x, reproc);
            o.More? && Read(s, o.s, v, if reproc then x.ptr else x.ptr + 1)
  {
    hide Laid;
    var i := |s.nodes|;
    LaidParent(x.nodes, i, s.top, v);
    var t := Next(true, x, reproc).s;
    if HasTop(s) {
      assert x.nodes[s.top] == x.nodes[..i][s.top] == Top(s);
      LaidSame(x.nodes, t.nodes, i, s.top, v);
    }
  }

  lemma LaidParent(nodes: seq<Node>, i: int, parent: int, v: Value)
    requires Laid(nodes, i, parent, v)
    ensures 0 <= i < |nodes| && nodes[i].parent == parent
  {
  }

  // ----- Words -----

  lemma WordHere(json: Text, p: int, b: Byte, word: Text)
    requires Here(json, p, [b] + word) && word != []
    ensures ByteAt(json, p) == b && Reads(json, p, word)
  {
    HereSplit(json, p, [b], word);
    HereAt(json, p, [b], 0);
  }

  lemma ReadWord(json: Text, s: State, v: Value) returns (t: State)
    requires At(json, s) && Awaits(s) && (v.NullValue? || v.Truth?) && Here(json, s.ptr, Written(v))
    ensures Arrives(json, s, t, v)
  {
    hide WF, Run, Followed, Next, Reads, NewValue, Here;
    AtTop(json, s);
    var b := Written(v)[0];
    assert Written(v) == [b] + Written(v)[1..];
    WordHere(json, s.ptr, b, Written(v)[1..]);
    var x := WordEnd(s, v);
    WordStep(json, s, v, x);
    Closes(s, x, v, false);
    GoOn(json, s);
    t := Step(json, true, s).s;
    if v.Truth? && Run(json, true, s).Accepted? {
      TruthRead(json, s);
    } else if Run(json, true, s).Accepted? {
      SomeFinal(json, s, t);
    }
  }

  lemma AtTop(json: Text, s: State)
    requires At(json, s)
    ensures NIL <= s.top < |s.nodes| && 0 <= s.ptr <= |json| && (s.flags.escaped ==> s.flags.inString)
  {
  }

  /** There are as many values in the end as were counted. */
  lemma SomeFinal(json: Text, s: State, t: State)
    requires Leads(json, s, t) && Run(json, true, s).Accepted?
    ensures |t.nodes| <= |Run(json, true, s).s.nodes| == |Final(json, Run(json, true, s))|
  {
    hide WF, Run, Sim;
    var s2 := FinalIs(json, t);
    var f := Run(json, true, t).s.nodes;
    var e := RunSim(json, t, s2, f);
    SimSame(t, s2, f);
    EndLength(json, t, e, f);
  }

  function WordEnd(s: State, v: Value): State
    requires v.NullValue? || v.Truth?
  {
    var n := NEW_NODE.(kind := if v.Truth? then Kind.Boolean else Kind.Null, parent := s.top,
                       boolean := v.Truth? && v.truth);
    s.(ptr := s.ptr + |Written(v)| - 1, flags := s.flags.(seekValue := false), nodes := s.nodes + [n],
       root := if s.root == NIL then |s.nodes| else s.root, top := |s.nodes|, alloc := |s.nodes|)
  }

  lemma WordStep(json: Text, s: State, v: Value, x: State)
    requires ValueHere(s) && (v.NullValue? || v.Truth?) && x == WordEnd(s, v)
    requires ByteAt(json, s.ptr) == Written(v)[0] && Reads(json, s.ptr, Written(v)[1..])
    ensures Step(json, true, s) == Next(true, x, false) && !NumberBegins(json, s)
    ensures x.nodes[..|s.nodes|] == s.nodes
  {
    hide Next, Reads;
    var w := Written(v);
    assert w[1..] == if v.NullValue? then [117, 108, 108] else if v.truth then [114, 117, 101]
        else [97, 108, 115, 101];
    var y := NewValue(true, s.(flags := s.flags.(seekValue := false)), Top(x).kind).s;
    assert WithTop(y, Top(y).(boolean := Top(x).boolean)).nodes == x.nodes;
  }

  // ----- Opening -----

  /** A new value is on top. */
  function Opened(s: State, kind: Kind): State {
    s.(ptr := s.ptr + 1,
       flags := s.flags.(seekValue := kind == Kind.Array, inString := kind == Kind.Str),
       stringLength := if kind == Kind.Str then 0 else s.stringLength,
       nodes := s.nodes + [NEW_NODE.(kind := kind, parent := s.top)],
       root := if s.root == NIL then |s.nodes| else s.root, top := |s.nodes|, alloc := |s.nodes|)
  }

  function Bracket(kind: Kind): Byte {
    if kind == Kind.Array then 91 else if kind == Kind.Object then 123 else 34
  }

  lemma Opens(json: Text, s: State, kind: Kind)
    requires At(json, s) && ValueHere(s) && ByteAt(json, s.ptr) == Bracket(kind)
    requires kind == Kind.Array || kind == Kind.Object || kind == Kind.Str
    ensures Leads(json, s, Opened(s, kind))
  {
    hide At, Leads;
    assert Step(json, true, s) == More(Opened(s, kind)) && !NumberBegins(json, s);
    GoOn(json, s);
  }

  // ----- Strings -----

  lemma ReadString(json: Text, s: State, raw: Text) returns (t: State)
    requires At(json, s) && Awaits(s) && Valid(Quoted(raw)) && Fits(Quoted(raw))
    requires Here(json, s.ptr, Written(Quoted(raw)))
    ensures Arrives(json, s, t, Quoted(raw))
  {
    hide WF, Run, Followed, Next, Contents, Meaningful, Here, Decode, IsText, Final, Step;
    AtTop(json, s);
    StringHere(json, s.ptr, raw);
    Opens(json, s, Kind.Str);
    var y := Opened(s, Kind.Str);
    StringWalk(json, y);
    var q := JsonPrint.AtQuote(y, Contents(raw), s.ptr + 1 + |raw|);
    var x := StringEnd(s, raw);
    QuoteStep(json, s, raw, q, x);
    Closes(s, x, Quoted(raw), false);
    GoOn(json, q);
    t := Step(json, true, q).s;
    if Run(json, true, s).Accepted? {
      StringTold(json, s);
    }
  }

  function StringEnd(s: State, raw: Text): State {
    var n := NEW_NODE.(kind := Kind.Str, parent := s.top, length := |Contents(raw)|);
    Opened(s, Kind.Str).(ptr := s.ptr + 1 + |raw|, flags := s.flags.(seekValue := false, inString := false),
                         stringLength := |Contents(raw)|, nodes := s.nodes + [n])
  }

  lemma QuoteStep(json: Text, s: State, raw: Text, q: State, x: State)
    requires ValueHere(s) && !s.flags.escaped && x == StringEnd(s, raw) && |Contents(raw)| <= COUNTER_MAX
    requires q == JsonPrint.AtQuote(Opened(s, Kind.Str), Contents(raw), s.ptr + 1 + |raw|)
    requires ByteAt(json, q.ptr) == 34
    ensures Step(json, true, q) == Next(true, x, false) && !NumberBegins(json, q) && x.nodes[..|s.nodes|] == s.nodes
  {
    hide Next, Contents;
    var o := q.(flags := q.flags.(inString := false));
    assert WithTop(o, Top(o).(length := q.stringLength)).nodes == x.nodes;
  }

  lemma StringTold(json: Text, s: State)
    requires At(json, s) && ValueHere(s) && Run(json, true, s).Accepted? && ByteAt(json, s.ptr) == 34
    ensures var e, i := Final(json, Run(json, true, s)), |s.nodes|;
            var d := Decode(json, s.ptr + 1, false);
            d.Meaning? && i < |e| && IsText(e[i], d.bytes)
  {
    hide WF, Run, IsText, Decode, Sim, Tree;
    var s2 := FinalIs(json, s);
    var e := StringIsDecoded(json, s, s2, Run(json, true, s).s.nodes);
  }

  // ----- Numbers -----

  lemma ReadNumber(json: Text, s: State, n: Numeral) returns (t: State)
    requires At(json, s) && Awaits(s) && Valid(Number(n)) && Here(json, s.ptr, WrittenNumber(n))
    requires !NumChar(ByteAt(json, s.ptr + |WrittenNumber(n)|))
    ensures Arrives(json, s, t, Number(n))
  {
    hide WF, Run, Followed, Next, Here, Step, Digits, SkipNumber, Final, Signed, Unsigned, WrittenNumber, ValidNumber;
    AtTop(json, s);
    SignHere(json, s.ptr, n);
    var y := NumberStart(s, n);
    NumberStep'(json, s, n);
    OneStep(json, s);
    var z := NumberWalk(json, y, n);
    t := s;
    if Readable(Number(n)) {
      NumberStops(json, z);
      var m := Signed(Top(z), z.num);
      var x := WithTop(z, m);
      NumberEnd(s, n, y, z);
      Closes(s, x, Number(n), true);
      OneStep(json, z);
      t := Step(json, true, z).s;
      NumberChars(n);
      Skipped(json, y.ptr, Unsigned(n));
      assert x == WithTop(y, m).(ptr := SkipNumber(json, y.ptr), num := z.num);
      NumberFollowed(json, s, y, m, z.num, t);
      if Run(json, true, s).Accepted? {
        SomeFinal(json, s, t);
      }
    }
  }

  /** Behind the sign of a number. */
  function NumberStart(s: State, n: Numeral): State {
    Opened(s, Integer).(ptr := if n.negative then s.ptr + 1 else s.ptr, num := Num(0, n.negative, false, false, false))
  }

  lemma SignHere(json: Text, p: nat, n: Numeral)
    requires Here(json, p, WrittenNumber(n))
    ensures var b := ByteAt(json, p); if n.negative then b == 45 else Digit(b)
    ensures Here(json, if n.negative then p + 1 else p, Unsigned(n))
    ensures |WrittenNumber(n)| == (if n.negative then 1 else 0) + |Unsigned(n)|
  {
    hide Here, Digits;
    if n.negative {
      assert WrittenNumber(n) == [45] + Unsigned(n);
      HereSplit(json, p, [45], Unsigned(n));
      HereAt(json, p, [45], 0);
    } else {
      assert WrittenNumber(n) == Unsigned(n);
      FirstIsDigit(n);
      HereAt(json, p, Unsigned(n), 0);
    }
  }

  lemma FirstIsDigit(n: Numeral)
    ensures Unsigned(n) != [] && Digit(Unsigned(n)[0])
  {
    var d := Digits(n.whole);
    assert d != [] && Digit(d[0]);
    assert Unsigned(n)[0] == d[0];
  }

  lemma NumberStep'(json: Text, s: State, n: Numeral)
    requires ValueHere(s) && var b := ByteAt(json, s.ptr); if n.negative then b == 45 else Digit(b)
    ensures Step(json, true, s) == More(NumberStart(s, n)) && NumberBegins(json, s)
    ensures NumberOpened(NumberStart(s, n), n)
  {
  }

  lemma NumberEnd(s: State, n: Numeral, y: State, z: State)
    requires ValueHere(s) && !s.flags.escaped && y == NumberStart(s, n) && SameNumber(y, z)
    requires z.num.negative == n.negative
    requires if IsInteger(n) then Top(z).kind == Integer && Top(z).integer == n.whole else Top(z).kind == Double
    ensures var m := Signed(Top(z), z.num); var x := WithTop(z, m);
            && x == WithTop(y, m).(ptr := z.ptr, num := z.num)
            && IsNumber(m.kind) && m == Top(y).(kind := m.kind, integer := m.integer)
            && x.top == |s.nodes| && |x.nodes| == |s.nodes| + 1 && x.nodes[..|s.nodes|] == s.nodes
            && Laid(x.nodes, |s.nodes|, s.top, Number(n))
            && x.flags == Flags(x.flags.needComma, false, false, false, false, false)
  {
    var m := Signed(Top(z), z.num);
    assert WithTop(z, m).nodes == WithTop(y, m).nodes;
    assert WithTop(y, m).nodes == s.nodes + [m];
  }

  /** From `y` on, all that looks like a number has been read, and has become `m`. */
  predicate NumberEnded(json: Text, y: State, m: Node, num: Num, t: State) {
    && 0 <= y.ptr <= |json| && IsNumber(m.kind) && HasTop(y)
    && m == Top(y).(kind := m.kind, integer := m.integer)
    && Next(true, WithTop(y, m).(ptr := SkipNumber(json, y.ptr), num := num), true) == More(t)
  }

  lemma NumberFollowed(json: Text, s: State, y: State, m: Node, num: Num, t: State)
    requires At(json, s) && Goes(json, s, t) && NumberEnded(json, y, m, num, t)
    requires NumberBegins(json, s) && Step(json, true, s) == More(y)
    requires Measure(json, t) < Measure(json, s)
    ensures At(json, t)
  {
    hide Step, Measure, Sim, WF, Tree, Run, Next, SkipNumber, Counted;
    var r := Run(json, true, s);
    if r.Accepted? {
      var f := r.s.nodes;
      var s2 := FinalIs(json, s);
      RunCounts(json, t);
      StepSound(json, s);
      var t2 := NumberBoth(json, s, s2, f, y, m, num, t);
      Behind(json, s, s2, t, t2, f);
    }
  }

  lemma NumberBoth(json: Text, s: State, s2: State, f: seq<Node>, y: State, m: Node, num: Num, t: State)
    returns (t2: State)
    requires WF(json, s) && WF(json, t) && Sim(s, s2, f) && Tree(f) && Counted(t, f)
    requires NumberBegins(json, s) && Step(json, true, s) == More(y) && WF(json, y)
    requires NumberEnded(json, y, m, num, t)
    ensures Step(json, false, s2) == More(t2) && Sim(t, t2, f)
  {
    hide Next, NodesSim, NodeSim, ChainNamed, Tree, Counted, Named, SkipNumber, NewValue, Reads, Literal;
    var x, x2 := s.(flags := s.flags.(seekValue := false)), s2.(flags := s2.flags.(seekValue := false));
    SameTop(s, s2, f);
    assert ValueStep(json, true, x, ByteAt(json, x.ptr)) == More(y);
    NumberOpen(json, x, y);
    SkipOne(json, s.ptr);
    t2 := NumberPair(json, x, x2, f, y, m, num, t);
  }

  // ----- Items -----

  /** Behind some items, before a comma or the end of the array. */
  ghost predicate ItemsRead(s: State, t: State, items: seq<Item>) {
    && t.flags == Flags(true, true, false, false, false, false) && Grew(s, t, |items|)
    && |t.nodes| == |s.nodes| + CountItems(items) && LaidItems(t.nodes, |s.nodes|, s.top, items)
  }

  ghost predicate KnownItems(json: Text, s: State, i: int, items: seq<Item>) {
    Run(json, true, s).Accepted? ==> ToldItems(Final(json, Run(json, true, s)), i, items)
  }

  predicate AllReadable(items: seq<Item>) {
    forall k | 0 <= k < |items| :: Readable(items[k].value)
  }

  predicate ItemsReady(items: seq<Item>) {
    forall k | 0 <= k < |items| :: ValidItem(items[k]) && Fits(items[k].value)
  }

  ghost predicate ItemsArrive(json: Text, s: State, t: State, items: seq<Item>)
    requires items != []
  {
    if AllReadable(items) then
      && Leads(json, s, t) && ItemsRead(s, t, items) && t.ptr == s.ptr + |WrittenItems(items)|
      && KnownItems(json, s, |s.nodes|, items)
    else
      Run(json, true, s) == Rejected
  }

  predicate InArray(s: State, n: nat) {
    && ValueHere(s) && !s.flags.escaped && HasTop(s) && Top(s).kind == Kind.Array && Top(s).length + n <= COUNTER_MAX
  }

  /** What comes behind the first item. */
  function ItemsTail(items: seq<Item>): Text
    requires items != []
  {
    if |items| == 1 then [93] else [44] + (WrittenItems(items[1..]) + [93])
  }

  lemma ItemsText(items: seq<Item>)
    requires items != []
    ensures WrittenItems(items) + [93]
            == items[0].before + (Written(items[0].value) + (items[0].after + ItemsTail(items)))
    ensures |WrittenItems(items)| == |items[0].before| + |Written(items[0].value)| + |items[0].after|
                                     + |ItemsTail(items)| - 1
  {
    hide Written, ItemsTail;
    TailedItems(items);
    Append2(items[0].before, Written(items[0].value), items[0].after, ItemsTail(items));
  }

  lemma TailedItems(items: seq<Item>)
    requires items != []
    ensures WrittenItems(items) + [93] == WrittenItem(items[0]) + ItemsTail(items)
  {
    hide WrittenItem;
  }

  lemma ReadyParts(items: seq<Item>)
    requires items != [] && ItemsReady(items)
    ensures Valid(items[0].value) && Fits(items[0].value) && Blank(items[0].before) && Blank(items[0].after)
    ensures ItemsReady(items[1..])
    ensures AllReadable(items) <==> Readable(items[0].value) && AllReadable(items[1..])
    ensures |items| == 1 ==> AllReadable(items[1..])
  {
    hide Valid, Fits, Readable, Blank;
    assert ValidItem(items[0]);
    if Readable(items[0].value) && AllReadable(items[1..]) {
      forall k | 0 <= k < |items|
        ensures Readable(items[k].value)
      {
        assert k > 0 ==> items[k] == items[1..][k - 1];
      }
    }
    if AllReadable(items) {
      forall k | 0 <= k < |items| - 1
        ensures Readable(items[1..][k].value)
      {
        assert items[1..][k] == items[k + 1];
      }
    }
  }

  /** White space, or a comma or bracket behind it, ends a number. */
  lemma NumberStopped(json: Text, p: nat, w: Text, b: Byte, rest: Text)
    requires Here(json, p, w + ([b] + rest)) && Blank(w) && !NumChar(b)
    ensures !NumChar(ByteAt(json, p))
  {
    HereAt(json, p, w + ([b] + rest), 0);
  }

  lemma TailBegins(items: seq<Item>) returns (b: Byte, rest: Text)
    requires items != []
    ensures ItemsTail(items) == [b] + rest && !NumChar(b) && (b == if |items| == 1 then 93 else 44) &&
            (|items| == 1 ==> rest == [])
  {
    hide WrittenItems;
    b := if |items| == 1 then 93 else 44;
    rest := ItemsTail(items)[1..];
  }

  lemma {:induction false} ReadItems(json: Text, s: State, items: seq<Item>) returns (t: State)
    requires At(json, s) && items != [] && InArray(s, |items|) && ItemsReady(items)
    requires Here(json, s.ptr, WrittenItems(items) + [93])
    ensures ItemsArrive(json, s, t, items)
    decreases items
  {
    hide WF, Run, Followed, Next, Here, Step, Final, Written, WrittenItems, Valid, Fits, Readable, Blank, ItemsReady,
         AllReadable, NumChar, ItemsTail, Laid, LaidItems, Told, ToldItems, Count, CountItems, ItemsRead;
    var i := items[0];
    ItemsText(items);
    ReadyParts(items);
    AtTop(json, s);
    BlankThen(json, s, i.before, Written(i.value) + (i.after + ItemsTail(items)));
    var s1 := Moved(s, |i.before|);
    AtTop(json, s1);
    HereSplit(json, s1.ptr, Written(i.value), i.after + ItemsTail(items));
    var b, rest := TailBegins(items);
    NumberStopped(json, s1.ptr + |Written(i.value)|, i.after, b, rest);
    t := ReadValue(json, s1, i.value);
    if !Readable(i.value) {
      return;
    }
    var t1 := t;
    BlankThen(json, t1, i.after, ItemsTail(items));
    var t2 := Moved(t1, |i.after|);
    if |items| == 1 {
      t := t2;
      OneItem(json, s, s1, t1, t, items);
    } else {
      AtTop(json, t2);
      CommaTail(items);
      HereSplit(json, t2.ptr, [44], WrittenItems(items[1..]) + [93]);
      Comma(json, t2, WrittenItems(items[1..]) + [93]);
      var t3 := t2.(ptr := t2.ptr + 1, flags := t2.flags.(needComma := false));
      t := ReadItems(json, t3, items[1..]);
      if AllReadable(items[1..]) {
        MoreItems(json, s, s1, t1, t3, t, items);
        MoreToldItems(json, s, s1, t3, items);
      }
    }
  }

  lemma CommaTail(items: seq<Item>)
    requires |items| > 1
    ensures ItemsTail(items) == [44] + (WrittenItems(items[1..]) + [93])
  {
    hide WrittenItems;
  }

  lemma Comma(json: Text, s: State, rest: Text)
    requires At(json, s) && Here(json, s.ptr, [44] + rest) && s.flags.needComma && !s.flags.inString && !s.flags.done
    requires HasTop(s) && (s.flags.seekValue || Top(s).kind == Kind.Object)
    ensures Leads(json, s, s.(ptr := s.ptr + 1, flags := s.flags.(needComma := false)))
  {
    hide WF, Run, Followed;
    HereSplit(json, s.ptr, [44], rest);
    HereAt(json, s.ptr, [44], 0);
    GoOn(json, s);
  }

  /** The first item, and nothing behind it. */
  lemma OneItem(json: Text, s: State, s1: State, t1: State, t: State, items: seq<Item>)
    requires |items| == 1 && HasTop(s) && Top(s).kind == Kind.Array && s1 == s.(ptr := s1.ptr)
    requires Read(s1, t1, items[0].value, t1.ptr) && t == t1.(ptr := t.ptr)
    requires Run(json, true, s1) == Run(json, true, s) && Known(json, s1, |s.nodes|, items[0].value)
    ensures ItemsRead(s, t, items) && KnownItems(json, s, |s.nodes|, items)
  {
    hide Run, Laid, Told, Count, Final;
    NoItems(t.nodes, |s.nodes| + Count(items[0].value), s.top, items[1..]);
    if Run(json, true, s).Accepted? {
      NoItemsTold(Final(json, Run(json, true, s)), |s.nodes| + Count(items[0].value), items[1..]);
    }
  }

  lemma NoItems(nodes: seq<Node>, i: int, parent: int, items: seq<Item>)
    requires items == []
    ensures LaidItems(nodes, i, parent, items) && CountItems(items) == 0
  {
  }

  lemma NoItemsTold(nodes: seq<Node>, i: int, items: seq<Item>)
    requires items == []
    ensures ToldItems(nodes, i, items)
  {
  }

  /** The first item, and then the others. */
  lemma MoreItems(json: Text, s: State, s1: State, t1: State, t3: State, t: State, items: seq<Item>)
    requires |items| > 1 && HasTop(s) && Top(s).kind == Kind.Array && s1 == s.(ptr := s1.ptr)
    requires Read(s1, t1, items[0].value, t1.ptr) && t3.nodes == t1.nodes && t3.top == t1.top
    requires ItemsRead(t3, t, items[1..])
    ensures ItemsRead(s, t, items)
  {
    hide Grew, Laid, LaidItems, Count, CountItems, AfterFlags;
    GrewTwice(s1, t1, t3, t, 1, |items| - 1);
    StillLaid(s1, t1, t3, t, |items| - 1, items[0].value);
    LaidFirst(t.nodes, |s.nodes|, s.top, items);
    SameGrew(s1, s, t, |items|);
  }

  lemma SameGrew(s: State, s': State, t: State, n: nat)
    requires s'.nodes == s.nodes && s'.top == s.top && Grew(s, t, n)
    ensures Grew(s', t, n)
  {
  }

  lemma MoreToldItems(json: Text, s: State, s1: State, t3: State, items: seq<Item>)
    requires |items| > 1 && |t3.nodes| == |s.nodes| + Count(items[0].value)
    requires Run(json, true, s1) == Run(json, true, t3) == Run(json, true, s)
    requires Known(json, s1, |s.nodes|, items[0].value) && KnownItems(json, t3, |t3.nodes|, items[1..])
    ensures KnownItems(json, s, |s.nodes|, items)
  {
    hide Run, Told, ToldItems, Count, Final;
    if Run(json, true, s).Accepted? {
      ToldFirst(Final(json, Run(json, true, s)), |s.nodes|, items);
    }
  }

  lemma LaidFirst(nodes: seq<Node>, i: int, parent: int, items: seq<Item>)
    requires items != [] && Laid(nodes, i, parent, items[0].value)
    requires LaidItems(nodes, i + Count(items[0].value), parent, items[1..])
    ensures LaidItems(nodes, i, parent, items)
    ensures CountItems(items) == Count(items[0].value) + CountItems(items[1..])
  {
    hide Laid, Count;
  }

  lemma ToldFirst(nodes: seq<Node>, i: int, items: seq<Item>)
    requires items != [] && Told(nodes, i, items[0].value) && ToldItems(nodes, i + Count(items[0].value), items[1..])
    ensures ToldItems(nodes, i, items)
  {
    hide Told, Count;
  }

  lemma GrewTwice(s: State, t: State, t': State, u: State, m: nat, n: nat)
    requires Grew(s, t, m) && t'.nodes == t.nodes && t'.top == t.top && Grew(t', u, n)
    ensures Grew(s, u, m + n) && t.top == s.top
  {
    assert u.nodes[..|s.nodes|] == u.nodes[..|t.nodes|][..|s.nodes|];
    assert t.nodes[..|s.nodes|][s.top] == t.nodes[s.top];
    assert u.nodes[..|t.nodes|][s.top] == u.nodes[s.top];
  }

  /** What has been read is not changed by what is read behind it. */
  lemma StillLaid(s: State, t: State, t': State, u: State, n: nat, v: Value)
    requires Grew(s, t, 1) && t'.nodes == t.nodes && t'.top == t.top && Grew(t', u, n)
    requires |t.nodes| == |s.nodes| + Count(v) && Laid(t.nodes, |s.nodes|, s.top, v)
    ensures Laid(u.nodes, |s.nodes|, s.top, v)
  {
    hide Laid, Count;
    forall k | |s.nodes| <= k < |t.nodes|
      ensures t.nodes[k] == u.nodes[k]
    {
      assert u.nodes[..|t.nodes|][k] == u.nodes[k];
    }
    LaidSame(t.nodes, u.nodes, |s.nodes|, s.top, v);
  }

  // ----- Arrays -----

  lemma {:induction false} ReadList(json: Text, s: State, v: Value) returns (t: State)
    requires At(json, s) && Awaits(s) && v.List? && Valid(v) && Fits(v) && Here(json, s.ptr, Written(v))
    ensures Arrives(json, s, t, v)
    decreases v, 0
  {
    hide WF, Run, Followed, Next, Here, Step, Final, WrittenItems, ValidItem, Fits, Readable, Blank,
         Laid, LaidItems, Told, ToldItems, Count, CountItems, Arrives, KnownItems, Grew;
    var body := if v.items == [] then v.inside else WrittenItems(v.items);
    HereSplit(json, s.ptr, [91], body + [93]);
    HereAt(json, s.ptr, [91], 0);
    AtTop(json, s);
    Opens(json, s, Kind.Array);
    var y := Opened(s, Kind.Array);
    ListParts(v);
    t := s;
    var z := Moved(y, |body|);
    if v.items == [] {
      BlankThen(json, y, body, [93]);
      NoneRead(json, y, v.items);
      GrewNone(y, z);
    } else {
      z := ReadItems(json, y, v.items);
      HereSplit(json, y.ptr, body, [93]);
      if !AllReadable(v.items) {
        NotRead(json, s, t, v);
        return;
      }
    }
    HereAt(json, z.ptr, [93], 0);
    t := ListEnd(json, s, z, v);
  }

  lemma ListParts(v: Value)
    requires v.List? && Valid(v) && Fits(v)
    ensures ItemsReady(v.items) && Blank(v.inside) && |v.items| <= COUNTER_MAX
    ensures Readable(v) <==> AllReadable(v.items)
  {
  }

  lemma NotRead(json: Text, s: State, t: State, v: Value)
    requires !Readable(v) && Run(json, true, s) == Rejected
    ensures Arrives(json, s, t, v)
  {
    hide Run, Readable;
  }

  lemma NoneRead(json: Text, y: State, items: seq<Item>)
    requires items == []
    ensures LaidItems(y.nodes, |y.nodes|, y.top, items) && KnownItems(json, y, |y.nodes|, items)
    ensures CountItems(items) == 0
  {
    hide Run;
  }

  lemma GrewNone(s: State, t: State)
    requires HasTop(s) && t.nodes == s.nodes && t.top == s.top
    ensures Grew(s, t, 0)
  {
  }

  lemma ListEnd(json: Text, s: State, z: State, v: Value) returns (t: State)
    requires At(json, s) && Awaits(s) && v.List? && Readable(v) && Leads(json, s, z) && !s.flags.escaped
    requires z.ptr + 1 == s.ptr + |Written(v)| && ByteAt(json, z.ptr) == 93
    requires z.flags == Flags(z.flags.needComma, true, false, false, false, false)
    requires var y := Opened(s, Kind.Array);
             && Grew(y, z, |v.items|) && |z.nodes| == |y.nodes| + CountItems(v.items)
             && LaidItems(z.nodes, |y.nodes|, y.top, v.items) && KnownItems(json, y, |y.nodes|, v.items)
             && Run(json, true, y) == Run(json, true, s)
    ensures Arrives(json, s, t, v)
  {
    hide WF, Run, Followed, Next, Step, Final, Written, Readable, LaidItems, ToldItems, CountItems;
    var y := Opened(s, Kind.Array);
    var x := z.(flags := z.flags.(needComma := false, seekValue := false));
    AtTop(json, s);
    HolderGrew(s, z, Kind.Array, |v.items|);
    Closes(s, x, v, false);
    EndStep(json, z, x);
    GoOn(json, z);
    t := Step(json, true, z).s;
    if Run(json, true, s).Accepted? {
      SomeFinal(json, s, t);
    }
  }

  /** The value that was opened, behind those that were there before. */
  lemma HolderGrew(s: State, z: State, kind: Kind, n: nat)
    requires Grew(Opened(s, kind), z, n)
    ensures z.nodes[..|s.nodes|] == s.nodes && z.top == |s.nodes| < |z.nodes|
    ensures z.nodes[z.top].kind == kind && z.nodes[z.top].parent == s.top && z.nodes[z.top].length == n
  {
    var y := Opened(s, kind);
    assert z.nodes[..|s.nodes|] == z.nodes[..|y.nodes|][..|s.nodes|];
    assert z.nodes[..|y.nodes|][z.top] == z.nodes[z.top];
  }

  lemma EndStep(json: Text, z: State, x: State)
    requires HasTop(z) && !z.flags.inString && !z.flags.done && x == z.(flags := x.flags)
    requires x.flags == z.flags.(needComma := false, seekValue := false)
    requires if ByteAt(json, z.ptr) == 93 then z.flags.seekValue && Top(z).kind == Kind.Array
             else ByteAt(json, z.ptr) == 125 && !z.flags.seekValue && Top(z).kind == Kind.Object
    ensures Step(json, true, z) == Next(true, x, false) && !NumberBegins(json, z)
  {
    hide Next;
  }

  // ----- Members -----

  /** Behind some members, before a comma or the end of the object. */
  ghost predicate MembersRead(s: State, t: State, members: seq<Member>) {
    && t.flags == Flags(true, false, false, false, false, false) && Grew(s, t, |members|)
    && |t.nodes| == |s.nodes| + CountMembers(members) && LaidMembers(t.nodes, |s.nodes|, s.top, members)
  }

  /** The names and values of the members from number `k` of value `p` on. */
  ghost predicate KnownMembers(json: Text, s: State, p: int, k: nat, i: int, members: seq<Member>) {
    Run(json, true, s).Accepted? ==> ToldMembers(Final(json, Run(json, true, s)), p, k, i, members)
  }

  predicate AllKept(members: seq<Member>) {
    forall k | 0 <= k < |members| :: Readable(members[k].item.value)
  }

  predicate MembersReady(members: seq<Member>) {
    forall k | 0 <= k < |members| ::
      ValidMember(members[k]) && |Contents(members[k].name)| <= COUNTER_MAX && Fits(members[k].item.value)
  }

  predicate InObject(s: State, n: nat) {
    Quiet(s) && HasTop(s) && Top(s).kind == Kind.Object && !s.flags.needComma && Top(s).length + n <= COUNTER_MAX
  }

  ghost predicate MembersArrive(json: Text, s: State, t: State, members: seq<Member>)
    requires members != [] && HasTop(s)
  {
    if AllKept(members) then
      && Leads(json, s, t) && MembersRead(s, t, members) && t.ptr == s.ptr + |WrittenMembers(members)|
      && KnownMembers(json, s, s.top, Top(s).length, |s.nodes|, members)
    else
      Run(json, true, s) == Rejected
  }

  function MembersTail(members: seq<Member>): Text
    requires members != []
  {
    if |members| == 1 then [125] else [44] + (WrittenMembers(members[1..]) + [125])
  }

  /** What comes behind the name. */
  function BehindColon(members: seq<Member>): Text
    requires members != []
  {
    var i := members[0].item;
    i.before + (Written(i.value) + (i.after + MembersTail(members)))
  }

  lemma MembersText(members: seq<Member>)
    requires members != []
    ensures var m := members[0];
            && WrittenMembers(members) + [125]
               == m.before + (WrittenString(m.name) + (m.gap + ([58] + BehindColon(members))))
            && |WrittenMembers(members)| + 1
               == |m.before| + |m.name| + 2 + |m.gap| + 1 + |m.item.before| + |Written(m.item.value)| + |m.item.after|
                  + |MembersTail(members)|
  {
    hide Written;
    var m := members[0];
    var i, tail := m.item, MembersTail(members);
    Tailed(members);
    Append2(i.before, Written(i.value), i.after, tail);
    Append4(m.before, WrittenString(m.name), m.gap, [58], WrittenItem(i), tail);
  }

  lemma Tailed(members: seq<Member>)
    requires members != []
    ensures WrittenMembers(members) + [125] == WrittenMember(members[0]) + MembersTail(members)
  {
    hide WrittenMember;
  }

  lemma Append2(a: Text, b: Text, c: Text, d: Text)
    ensures (a + (b + c)) + d == a + (b + (c + d))
  {
  }

  lemma Append4(a: Text, b: Text, c: Text, d: Text, e: Text, f: Text)
    ensures (a + (b + (c + (d + e)))) + f == a + (b + (c + (d + (e + f))))
  {
    Append2(a, b, c + (d + e), f);
    Append2(c, d, e, f);
  }

  lemma MembersParts(members: seq<Member>)
    requires members != [] && MembersReady(members)
    ensures var m := members[0];
            && Blank(m.before) && Blank(m.gap) && Meaningful(m.name) && |Contents(m.name)| <= COUNTER_MAX
            && Blank(m.item.before) && Blank(m.item.after) && Valid(m.item.value) && Fits(m.item.value)
    ensures MembersReady(members[1..])
    ensures AllKept(members) <==> Readable(members[0].item.value) && AllKept(members[1..])
    ensures |members| == 1 ==> AllKept(members[1..])
  {
    hide Valid, Fits, Readable, Blank, Meaningful, Contents;
    assert ValidMember(members[0]) && ValidItem(members[0].item);
    if Readable(members[0].item.value) && AllKept(members[1..]) {
      forall k | 0 <= k < |members|
        ensures Readable(members[k].item.value)
      {
        assert k > 0 ==> members[k] == members[1..][k - 1];
      }
    }
    if AllKept(members) {
      forall k | 0 <= k < |members| - 1
        ensures Readable(members[1..][k].item.value)
      {
        assert members[1..][k] == members[k + 1];
      }
    }
  }

  /** A name has been read, and the colon behind it. */
  ghost predicate NameDone(json: Text, s: State, t: State, name: Text) {
    && Leads(json, s, t) && HasTop(s) && t.top == s.top
    && t.flags == Flags(false, true, false, false, false, false)
    && |t.nodes| == |s.nodes| && t.nodes == s.nodes[s.top := Top(s).(keyBytes := t.nodes[s.top].keyBytes)]
    && (Run(json, true, s).Accepted? ==>
          var e := Final(json, Run(json, true, s));
          s.top < |e| && NameIs(e[s.top], Top(s).length, Contents(name)))
  }

  lemma ReadName(json: Text, s: State, m: Member, rest: Text) returns (t: State)
    requires At(json, s) && InObject(s, 1) && Blank(m.before) && Blank(m.gap) && Meaningful(m.name)
    requires |Contents(m.name)| <= COUNTER_MAX
    requires Here(json, s.ptr, m.before + (WrittenString(m.name) + (m.gap + ([58] + rest))))
    ensures NameDone(json, s, t, m.name) && Here(json, t.ptr, rest)
    ensures t.ptr == s.ptr + |m.before| + |m.name| + 2 + |m.gap| + 1
  {
    hide WF, Run, Followed, Here, Step, Final, Contents, Meaningful, Blank, Decode, NameIs, WrittenString, NumberBegins;
    BlankThen(json, s, m.before, WrittenString(m.name) + (m.gap + ([58] + rest)));
    var s1 := Moved(s, |m.before|);
    AtTop(json, s1);
    HereSplit(json, s1.ptr, WrittenString(m.name), m.gap + ([58] + rest));
    StringHere(json, s1.ptr, m.name);
    NameStep(json, s1);
    GoOn(json, s1);
    var y := s1.(ptr := s1.ptr + 1, flags := s1.flags.(inString := true), stringLength := 0);
    StringWalk(json, y);
    var q := JsonPrint.AtQuote(y, Contents(m.name), s1.ptr + 1 + |m.name|);
    NameQuote(json, q);
    GoOn(json, q);
    var c := Step(json, true, q).s;
    QuotesToo(m.name);
    BlankThen(json, c, m.gap, [58] + rest);
    var c1 := Moved(c, |m.gap|);
    HereSplit(json, c1.ptr, [58], rest);
    HereAt(json, c1.ptr, [58], 0);
    ColonStep(json, c1);
    GoOn(json, c1);
    t := Step(json, true, c1).s;
    if Run(json, true, s).Accepted? {
      NameTold(json, s1);
    }
  }

  lemma QuotesToo(raw: Text)
    ensures |WrittenString(raw)| == |raw| + 2
  {
  }

  lemma NameStep(json: Text, s: State)
    requires InObject(s, 1) && ByteAt(json, s.ptr) == 34
    ensures Step(json, true, s) == More(s.(ptr := s.ptr + 1, flags := s.flags.(inString := true), stringLength := 0))
    ensures !NumberBegins(json, s) && NameHere(json, s)
  {
  }

  lemma NameQuote(json: Text, q: State)
    requires q.flags.inString && !q.flags.escaped && ByteAt(json, q.ptr) == 34 && q.stringLength <= COUNTER_MAX
    requires HasTop(q) && Top(q).kind == Kind.Object
    ensures Step(json, true, q)
            == More(q.(ptr := q.ptr + 1, flags := q.flags.(inString := false, seekValue := true, needColon := true),
                       nodes := q.nodes[q.top := Top(q).(keyBytes := Top(q).keyBytes + q.stringLength + 1)]))
    ensures !NumberBegins(json, q)
  {
  }

  lemma ColonStep(json: Text, s: State)
    requires ByteAt(json, s.ptr) == 58 && s.flags.seekValue && s.flags.needColon && !s.flags.needComma
    requires !s.flags.inString && !s.flags.done
    ensures Step(json, true, s) == More(s.(ptr := s.ptr + 1, flags := s.flags.(needColon := false)))
    ensures !NumberBegins(json, s)
  {
  }

  lemma NameTold(json: Text, s: State)
    requires At(json, s) && NameHere(json, s) && Run(json, true, s).Accepted?
    ensures var e := Final(json, Run(json, true, s));
            var d := Decode(json, s.ptr + 1, false);
            d.Meaning? && 0 <= s.top < |e| && NameIs(e[s.top], Top(s).length, d.bytes)
  {
    hide WF, Run, NameIs, Decode, Sim, Tree;
    var s2 := FinalIs(json, s);
    var e := NameIsDecoded(json, s, s2, Run(json, true, s).s.nodes);
  }

  lemma {:induction false} ReadMembers(json: Text, s: State, members: seq<Member>) returns (t: State)
    requires At(json, s) && members != [] && InObject(s, |members|) && MembersReady(members)
    requires Here(json, s.ptr, WrittenMembers(members) + [125])
    ensures MembersArrive(json, s, t, members)
    decreases members
  {
    hide WF, Run, Followed, Next, Here, Step, Final, Written, WrittenMembers, Valid, Fits, Readable, Blank,
         MembersReady, AllKept, NumChar, MembersTail, BehindColon, Laid, LaidMembers, Told, ToldMembers, Count,
         CountMembers, MembersRead, NameIs, Meaningful, Contents, KnownMembers;
    var m := members[0];
    MembersText(members);
    MembersParts(members);
    var c := ReadName(json, s, m, BehindColon(members));
    ColonText(members);
    BlankThen(json, c, m.item.before, Written(m.item.value) + (m.item.after + MembersTail(members)));
    var s1 := Moved(c, |m.item.before|);
    AtTop(json, s1);
    HereSplit(json, s1.ptr, Written(m.item.value), m.item.after + MembersTail(members));
    var b, rest := MemberBegins(members);
    NumberStopped(json, s1.ptr + |Written(m.item.value)|, m.item.after, b, rest);
    t := ReadValue(json, s1, m.item.value);
    if !Readable(m.item.value) {
      return;
    }
    var t1 := t;
    BlankThen(json, t1, m.item.after, MembersTail(members));
    var t2 := Moved(t1, |m.item.after|);
    if |members| == 1 {
      t := t2;
      OneMember(json, s, c, s1, t1, t, members);
    } else {
      AtTop(json, t2);
      CommaMembers(members);
      Comma(json, t2, WrittenMembers(members[1..]) + [125]);
      HereSplit(json, t2.ptr, [44], WrittenMembers(members[1..]) + [125]);
      var t3 := t2.(ptr := t2.ptr + 1, flags := t2.flags.(needComma := false));
      t := ReadMembers(json, t3, members[1..]);
      if AllKept(members[1..]) {
        MoreMembers(json, s, c, s1, t1, t3, t, members);
        NextTop(json, s, c, s1, t1, m.name);
        MoreToldMembers(json, s, c, s1, t3, members);
      }
    }
  }

  lemma ColonText(members: seq<Member>)
    requires members != []
    ensures var i := members[0].item;
            BehindColon(members) == i.before + (Written(i.value) + (i.after + MembersTail(members)))
  {
    hide Written, MembersTail;
  }

  lemma CommaMembers(members: seq<Member>)
    requires |members| > 1
    ensures MembersTail(members) == [44] + (WrittenMembers(members[1..]) + [125])
  {
    hide WrittenMembers;
  }

  lemma MemberBegins(members: seq<Member>) returns (b: Byte, rest: Text)
    requires members != []
    ensures MembersTail(members) == [b] + rest && !NumChar(b) && (b == if |members| == 1 then 125 else 44) &&
            (|members| == 1 ==> rest == [])
  {
    hide WrittenMembers;
    b := if |members| == 1 then 125 else 44;
    rest := MembersTail(members)[1..];
  }

  lemma OneMember(json: Text, s: State, c: State, s1: State, t1: State, t: State, members: seq<Member>)
    requires |members| == 1 && HasTop(s) && Top(s).kind == Kind.Object && s1 == c.(ptr := s1.ptr)
    requires NameDone(json, s, c, members[0].name)
    requires Read(s1, t1, members[0].item.value, t1.ptr) && t == t1.(ptr := t.ptr)
    requires Run(json, true, s1) == Run(json, true, s) && Known(json, s1, |s.nodes|, members[0].item.value)
    ensures MembersRead(s, t, members) && KnownMembers(json, s, s.top, Top(s).length, |s.nodes|, members)
  {
    hide Run, Laid, Told, Count, At, NameIs, Contents, Final;
    NamedGrew(json, s, c, s1, t1, members[0].name);
    NoMembers(t.nodes, |s.nodes| + Count(members[0].item.value), s.top, members[1..]);
    if Run(json, true, s).Accepted? {
      NoMembersTold(Final(json, Run(json, true, s)), s.top, Top(s).length + 1,
          |s.nodes| + Count(members[0].item.value), members[1..]);
    }
  }

  lemma NamedGrew(json: Text, s: State, c: State, s1: State, t1: State, name: Text)
    requires NameDone(json, s, c, name) && s1 == c.(ptr := s1.ptr) && Grew(s1, t1, 1)
    ensures Grew(s, t1, 1)
  {
    hide Run, At, NameIs, Contents, Final;
  }

  lemma NoMembers(nodes: seq<Node>, i: int, parent: int, members: seq<Member>)
    requires members == []
    ensures LaidMembers(nodes, i, parent, members) && CountMembers(members) == 0
  {
  }

  lemma NoMembersTold(nodes: seq<Node>, p: int, k: nat, i: int, members: seq<Member>)
    requires members == []
    ensures ToldMembers(nodes, p, k, i, members)
  {
  }

  lemma MoreMembers(json: Text, s: State, c: State, s1: State, t1: State, t3: State, t: State, members: seq<Member>)
    requires |members| > 1 && HasTop(s) && Top(s).kind == Kind.Object && s1 == c.(ptr := s1.ptr)
    requires NameDone(json, s, c, members[0].name)
    requires HasTop(s1) && Read(s1, t1, members[0].item.value, t1.ptr) && t3.nodes == t1.nodes && t3.top == t1.top
    requires MembersRead(t3, t, members[1..])
    ensures MembersRead(s, t, members)
  {
    hide Grew, Run, Laid, LaidMembers, Count, CountMembers, At, NameIs, Contents, Final, AfterFlags;
    NamedGrew(json, s, c, s1, t1, members[0].name);
    GrewTwice(s, t1, t3, t, 1, |members| - 1);
    StillLaid(s1, t1, t3, t, |members| - 1, members[0].item.value);
    LaidMember(t.nodes, |s.nodes|, s.top, members);
  }

  lemma MoreToldMembers(json: Text, s: State, c: State, s1: State, t3: State, members: seq<Member>)
    requires |members| > 1 && HasTop(s) && |t3.nodes| == |s.nodes| + Count(members[0].item.value)
    requires NameDone(json, s, c, members[0].name)
    requires Run(json, true, s1) == Run(json, true, t3) == Run(json, true, s)
    requires Known(json, s1, |s.nodes|, members[0].item.value)
    requires KnownMembers(json, t3, s.top, Top(s).length + 1, |t3.nodes|, members[1..])
    ensures KnownMembers(json, s, s.top, Top(s).length, |s.nodes|, members)
  {
    hide Run, Told, ToldMembers, Count, At, NameIs, Contents, Final;
    if Run(json, true, s).Accepted? {
      ToldMember(Final(json, Run(json, true, s)), s.top, Top(s).length, |s.nodes|, members);
    }
  }

  lemma NextTop(json: Text, s: State, c: State, s1: State, t: State, name: Text)
    requires NameDone(json, s, c, name) && s1 == c.(ptr := s1.ptr) && Grew(s1, t, 1)
    ensures HasTop(s) && HasTop(t) && t.top == s.top && Top(t).length == Top(s).length + 1
  {
    hide Run, At, NameIs, Contents, Final;
    NamedGrew(json, s, c, s1, t, name);
    assert t.nodes[..|s.nodes|][s.top] == t.nodes[s.top];
  }

  lemma LaidMember(nodes: seq<Node>, i: int, parent: int, members: seq<Member>)
    requires members != [] && Laid(nodes, i, parent, members[0].item.value)
    requires LaidMembers(nodes, i + Count(members[0].item.value), parent, members[1..])
    ensures LaidMembers(nodes, i, parent, members)
    ensures CountMembers(members) == Count(members[0].item.value) + CountMembers(members[1..])
  {
    hide Laid, Count;
  }

  lemma ToldMember(nodes: seq<Node>, p: int, k: nat, i: int, members: seq<Member>)
    requires members != [] && 0 <= p < |nodes| && NameIs(nodes[p], k, Contents(members[0].name))
    requires Told(nodes, i, members[0].item.value)
    requires ToldMembers(nodes, p, k + 1, i + Count(members[0].item.value), members[1..])
    ensures ToldMembers(nodes, p, k, i, members)
  {
    hide Told, Count, NameIs, Contents;
  }

  // ----- Objects -----

  lemma {:induction false} ReadRecord(json: Text, s: State, v: Value) returns (t: State)
    requires At(json, s) && Awaits(s) && v.Record? && Valid(v) && Fits(v) && Here(json, s.ptr, Written(v))
    ensures Arrives(json, s, t, v)
    decreases v, 0
  {
    hide WF, Run, Followed, Next, Here, Step, Final, WrittenMembers, ValidMember, Fits, Readable, Blank, Contents,
         Laid, LaidMembers, Told, ToldMembers, Count, CountMembers, Arrives, KnownMembers, Grew;
    var body := if v.members == [] then v.inside else WrittenMembers(v.members);
    HereSplit(json, s.ptr, [123], body + [125]);
    HereAt(json, s.ptr, [123], 0);
    AtTop(json, s);
    Opens(json, s, Kind.Object);
    var y := Opened(s, Kind.Object);
    RecordParts(v);
    t := s;
    var z := Moved(y, |body|);
    if v.members == [] {
      BlankThen(json, y, body, [125]);
      NoneNamed(json, y, v.members);
      GrewNone(y, z);
    } else {
      z := ReadMembers(json, y, v.members);
      HereSplit(json, y.ptr, body, [125]);
      if !AllKept(v.members) {
        NotRead(json, s, t, v);
        return;
      }
    }
    HereAt(json, z.ptr, [125], 0);
    t := RecordEnd(json, s, z, v);
  }

  lemma RecordParts(v: Value)
    requires v.Record? && Valid(v) && Fits(v)
    ensures MembersReady(v.members) && Blank(v.inside) && |v.members| <= COUNTER_MAX
    ensures Readable(v) <==> AllKept(v.members)
  {
  }

  lemma NoneNamed(json: Text, y: State, members: seq<Member>)
    requires members == []
    ensures LaidMembers(y.nodes, |y.nodes|, y.top, members) && KnownMembers(json, y, y.top, 0, |y.nodes|, members)
    ensures CountMembers(members) == 0
  {
    hide Run;
  }

  lemma RecordEnd(json: Text, s: State, z: State, v: Value) returns (t: State)
    requires At(json, s) && Awaits(s) && v.Record? && Readable(v) && Leads(json, s, z) && !s.flags.escaped
    requires z.ptr + 1 == s.ptr + |Written(v)| && ByteAt(json, z.ptr) == 125
    requires z.flags == Flags(z.flags.needComma, false, false, false, false, false)
    requires var y := Opened(s, Kind.Object);
             && Grew(y, z, |v.members|) && |z.nodes| == |y.nodes| + CountMembers(v.members)
             && LaidMembers(z.nodes, |y.nodes|, y.top, v.members)
             && KnownMembers(json, y, y.top, 0, |y.nodes|, v.members)
             && Run(json, true, y) == Run(json, true, s)
    ensures Arrives(json, s, t, v)
  {
    hide WF, Run, Followed, Next, Step, Final, Written, Readable, LaidMembers, ToldMembers, CountMembers;
    var y := Opened(s, Kind.Object);
    var x := z.(flags := z.flags.(needComma := false, seekValue := false));
    AtTop(json, s);
    HolderGrew(s, z, Kind.Object, |v.members|);
    Closes(s, x, v, false);
    EndStep(json, z, x);
    GoOn(json, z);
    t := Step(json, true, z).s;
    if Run(json, true, s).Accepted? {
      SomeFinal(json, s, t);
    }
  }

  // ----- All values -----

  /** From the beginning of any value to its end. */
  lemma {:induction false} ReadValue(json: Text, s: State, v: Value) returns (t: State)
    requires At(json, s) && Awaits(s) && Valid(v) && Fits(v) && Here(json, s.ptr, Written(v))
    requires !NumChar(ByteAt(json, s.ptr + |Written(v)|))
    ensures Arrives(json, s, t, v)
    decreases v, 1
  {
    hide At, Awaits, Here, Arrives, Valid, Fits, NumChar, WrittenNumber;
    match v
    case Number(n) => t := ReadNumber(json, s, n);
    case Quoted(raw) => t := ReadString(json, s, raw);
    case List(_, _) => t := ReadList(json, s, v);
    case Record(_, _) => t := ReadRecord(json, s, v);
    case _ => t := ReadWord(json, s, v);
  }
}
