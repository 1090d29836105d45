/**
 The JSON parser on whole texts (src/json.c): every value of JSON is accepted, but
 for numbers it cannot read, and the list that is made of it represents it.
 */
module JsonDocument {
  import opened Bytes
  import opened Escape
  import opened Json
  import opened JsonFirstPass
  import opened JsonSecondPass
  import opened JsonTree
  import opened JsonNames
  import opened JsonValues
  import opened JsonSteps
  import opened JsonAccept

  // ----- From the places of values to the slots that lead to them -----

  /** Of two rows in order, as long as each other, the one that is contained in the other is the other. */
  lemma SameRow(a: seq<int>, b: seq<int>)
    requires Ascending(a) && Ascending(b) && |a| == |b| && forall k | 0 <= k < |a| :: a[k] in b
    ensures a == b
  {
    forall k | 0 <= k < |a|
      ensures a[k] == b[k]
    {
      var g := NotBefore(a, b, k);
      var h := NotBehind(a, b, k);
    }
  }

  lemma {:induction false} NotBefore(a: seq<int>, b: seq<int>, k: nat) returns (g: nat)
    requires Ascending(a) && Ascending(b) && forall j | 0 <= j < |a| :: a[j] in b
    requires k < |a|
    ensures k <= g < |b| && b[g] == a[k]
    decreases k
  {
    assert a[k] in b;
    g :| 0 <= g < |b| && b[g] == a[k];
    if k > 0 {
      var g' := NotBefore(a, b, k - 1);
    }
  }

  lemma {:induction false} NotBehind(a: seq<int>, b: seq<int>, k: nat) returns (g: nat)
    requires Ascending(a) && Ascending(b) && |a| == |b| && forall j | 0 <= j < |a| :: a[j] in b
    requires k < |a|
    ensures g <= k && b[g] == a[k]
    decreases |a| - k
  {
    assert a[k] in b;
    g :| 0 <= g < |b| && b[g] == a[k];
    if k + 1 < |a| {
      var g' := NotBehind(a, b, k + 1);
    }
  }

  /** Places in order, none before `i`. */
  predicate InOrder(p: seq<int>, i: int) {
    Ascending(p) && forall k | 0 <= k < |p| :: i <= p[k]
  }

  lemma PlaceBefore(i: int, p: seq<int>)
    requires InOrder(p, i + 1)
    ensures InOrder([i] + p, i)
  {
  }

  lemma InOrderFrom(p: seq<int>, i: int, j: int)
    requires InOrder(p, i) && j <= i
    ensures InOrder(p, j)
  {
  }

  /** Where the values of an array are. */
  lemma {:induction false} ItemPlaces(f: seq<Node>, e: seq<Node>, i: int, parent: int, items: seq<Item>)
    returns (p: seq<int>)
    requires LaidItems(f, i, parent, items) && ToldItems(e, i, items)
    ensures |p| == |items| && InOrder(p, i)
    ensures forall k | 0 <= k < |p| :: Laid(f, p[k], parent, items[k].value) && Told(e, p[k], items[k].value)
    decreases items
  {
    hide Laid, Told, Count;
    p := [];
    if items != [] {
      var n := Count(items[0].value);
      var q := ItemPlaces(f, e, i + n, parent, items[1..]);
      InOrderFrom(q, i + n, i + 1);
      PlaceBefore(i, q);
      p := [i] + q;
      forall k | 0 <= k < |p|
        ensures Laid(f, p[k], parent, items[k].value) && Told(e, p[k], items[k].value)
      {
        assert k > 0 ==> p[k] == q[k - 1] && items[k] == items[1..][k - 1];
      }
    }
  }

  /** Where the values of an object are; member `j` is the first of these. */
  lemma {:induction false} MemberPlaces(f: seq<Node>, e: seq<Node>, i: int, parent: int, j: nat, members: seq<Member>)
    returns (p: seq<int>)
    requires LaidMembers(f, i, parent, members) && ToldMembers(e, parent, j, i, members)
    ensures |p| == |members| && InOrder(p, i) && (members != [] ==> 0 <= parent < |e|)
    ensures forall k | 0 <= k < |p| ::
              Laid(f, p[k], parent, members[k].item.value) && Told(e, p[k], members[k].item.value)
    ensures forall k | 0 <= k < |members| :: 0 <= parent < |e| && NameIs(e[parent], j + k, Contents(members[k].name))
    decreases members
  {
    hide Laid, Told, Count, NameIs, Contents;
    p := [];
    if members != [] {
      var n := Count(members[0].item.value);
      var q := MemberPlaces(f, e, i + n, parent, j + 1, members[1..]);
      InOrderFrom(q, i + n, i + 1);
      PlaceBefore(i, q);
      p := [i] + q;
      forall k | 0 <= k < |p|
        ensures Laid(f, p[k], parent, members[k].item.value) && Told(e, p[k], members[k].item.value)
      {
        assert k > 0 ==> p[k] == q[k - 1] && members[k] == members[1..][k - 1];
      }
      forall k | 0 <= k < |members|
        ensures NameIs(e[parent], j + k, Contents(members[k].name))
      {
        if k > 0 {
          assert members[k] == members[1..][k - 1];
          assert NameIs(e[parent], j + 1 + (k - 1), Contents(members[1..][k - 1].name));
        }
      }
    }
  }

  /** What the second pass has made of the list of the first. */
  ghost predicate Completed(f: seq<Node>, e: seq<Node>) {
    && |e| == |f| && IsTree(e)
    && forall i | 0 <= i < |f| :: Filled(e[i], f[i]) && e[i].integer == f[i].integer
  }

  lemma KidsAre(f: seq<Node>, e: seq<Node>, i: int, p: seq<int>)
    requires Completed(f, e) && 0 <= i < |f| && Holds(f[i].kind) && |p| == f[i].length && InOrder(p, i + 1)
    requires forall k | 0 <= k < |p| :: 0 <= p[k] < |f| && f[p[k]].parent == i
    ensures |e[i].slots| == e[i].length == |p| && forall k | 0 <= k < |p| :: ValueIn(e[i], k) == p[k]
  {
    var kids := Kids(e[i]);
    assert Filled(e[i], f[i]);
    forall k | 0 <= k < |p|
      ensures p[k] in kids
    {
      assert Filled(e[p[k]], f[p[k]]);
    }
    SameRow(p, kids);
  }

  /** A value that was counted and told is represented. */
  lemma {:induction false} Represents(f: seq<Node>, e: seq<Node>, i: int, parent: int, v: Value)
    requires Laid(f, i, parent, v) && Told(e, i, v) && Completed(f, e)
    ensures Shown(e, i, v)
    decreases v
  {
    hide IsTree, NameIs, IsText, Contents;
    assert Filled(e[i], f[i]);
    if v.List? {
      var p := ItemPlaces(f, e, i + 1, i, v.items);
      AreParents(f, i, p, seq(|p|, k requires 0 <= k < |p| => v.items[k].value));
      KidsAre(f, e, i, p);
      forall k | 0 <= k < |v.items|
        ensures Shown(e, ValueIn(e[i], k), v.items[k].value)
      {
        Represents(f, e, p[k], i, v.items[k].value);
      }
    } else if v.Record? {
      var p := MemberPlaces(f, e, i + 1, i, 0, v.members);
      AreParents(f, i, p, seq(|p|, k requires 0 <= k < |p| => v.members[k].item.value));
      KidsAre(f, e, i, p);
      forall k | 0 <= k < |v.members|
        ensures NameIs(e[i], k, Contents(v.members[k].name))
        ensures Shown(e, ValueIn(e[i], k), v.members[k].item.value)
      {
        assert NameIs(e[i], 0 + k, Contents(v.members[k].name));
        Represents(f, e, p[k], i, v.members[k].item.value);
      }
    }
  }

  lemma AreParents(f: seq<Node>, i: int, p: seq<int>, vs: seq<Value>)
    requires |vs| == |p| && forall k | 0 <= k < |p| :: Laid(f, p[k], i, vs[k])
    ensures forall k | 0 <= k < |p| :: 0 <= p[k] < |f| && f[p[k]].parent == i
  {
    hide Laid;
    forall k | 0 <= k < |p|
      ensures 0 <= p[k] < |f| && f[p[k]].parent == i
    {
      assert Laid(f, p[k], i, vs[k]);
      LaidParent(f, p[k], i, vs[k]);
    }
  }

  // ----- Whole texts -----

  lemma StartAt(json: Text)
    ensures At(json, Start(NIL, [])) && Awaits(Start(NIL, [])) && Between(Start(NIL, []))
  {
    hide Run, Step, Sim;
    var s := Start(NIL, []);
    assert WF(json, s);
    if Run(json, true, s).Accepted? {
      StartSims(json, Run(json, true, s).s);
    }
  }

  lemma EndsHere(json: Text, p: nat, w: Text)
    requires Here(json, p, w) && Blank(w) && p + |w| == |json|
    ensures !NumChar(ByteAt(json, p))
  {
    if w != [] {
      HereAt(json, p, w, 0);
    }
  }

  lemma AtTheEnd(json: Text, s: State)
    requires s.ptr == |json| && s.flags.done && !s.flags.inString
    ensures Run(json, true, s) == Accepted(s)
  {
    RunEnds(json, true, s);
  }

  /** The first pass over a whole text. */
  lemma FirstPass(before: Text, v: Value, after: Text) returns (t: State)
    requires Blank(before) && Blank(after) && Valid(v) && Fits(v)
    ensures var json := before + (Written(v) + after); var s := Start(NIL, []);
            if Readable(v) then
              Run(json, true, s) == Accepted(t) && Laid(t.nodes, 0, NIL, v) && |t.nodes| == Count(v)
              && Told(Final(json, Run(json, true, s)), 0, v)
            else Run(json, true, s) == Rejected
  {
    hide Run, WF, Followed, Here, Written, Blank, Valid, Fits, NumChar, Readable, Laid, Told, Count, Final;
    var json, s := before + (Written(v) + after), Start(NIL, []);
    StartAt(json);
    AllHere(json);
    BlankThen(json, s, before, Written(v) + after);
    var s1 := Moved(s, |before|);
    HereSplit(json, s1.ptr, Written(v), after);
    EndsHere(json, s1.ptr + |Written(v)|, after);
    t := ReadValue(json, s1, v);
    if Readable(v) {
      SkipBlank(json, t, after);
      t := Moved(t, |after|);
      AtTheEnd(json, t);
    }
  }

  lemma AllHere(json: Text)
    ensures Here(json, 0, json)
  {
  }

  /**
   A text that is a value of JSON, with any white space, is accepted exactly if it
   has no number too large for an integer that goes on with a fraction.  The list
   that is made of it then represents the value, and has nothing else in it.
   */
  lemma EveryValue(before: Text, v: Value, after: Text) returns (e2: State)
    requires Blank(before) && Blank(after) && Valid(v) && Fits(v)
    ensures var r := Run(before + (Written(v) + after), true, Start(NIL, []));
            && (r.Accepted? <==> Readable(v)) && (r.Accepted? || r == Rejected)
            && (r.Accepted? ==>
                  && Run(before + (Written(v) + after), false, Start(0, r.s.nodes)) == Accepted(e2)
                  && |e2.nodes| == Count(v) && Shown(e2.nodes, 0, v))
  {
    hide Run, Written, Valid, Fits, Readable, Laid, Told, Count, Shown, IsTree, Filled, Sim, Tree;
    var json := before + (Written(v) + after);
    var t := FirstPass(before, v, after);
    e2 := t;
    if Readable(v) {
      var f := t.nodes;
      e2 := TwoPasses(json);
      var _ := ResultIsTree(json);
      StartSims(json, t);
      forall i | 0 <= i < |f|
        ensures e2.nodes[i].integer == f[i].integer
      {
        var _ := RunStay(json, Start(NIL, []), Start(0, f), f, i);
      }
      Represents(f, e2.nodes, 0, NIL, v);
    }
  }

  /** The text is this value, and white space around it. */
  ghost predicate Writes(json: Text, v: Value) {
    Valid(v) && exists before, after :: Blank(before) && Blank(after) && json == before + (Written(v) + after)
  }

  /** The same, for a text that is known to be a value. */
  lemma WritesValue(json: Text, v: Value)
    requires Writes(json, v) && Fits(v)
    ensures var r := Run(json, true, Start(NIL, []));
            && (r.Accepted? <==> Readable(v))
            && (r.Accepted? ==>
                  var r2 := Run(json, false, Start(0, r.s.nodes));
                  r2.Accepted? && |r2.s.nodes| == Count(v) && Shown(r2.s.nodes, 0, v))
  {
    hide Run, Written, Valid, Fits, Readable, Count, Shown, Blank;
    var before, after :| Blank(before) && Blank(after) && json == before + (Written(v) + after);
    var _ := EveryValue(before, v, after);
  }

  /** An instance: 9223372036854775808 is accepted, and 9223372036854775808.5 is not. */
  lemma LargeFraction() returns (t: State)
    ensures var whole := Numeral(false, 0x8000_0000_0000_0000, [], [], []);
            && Run(Written(Number(whole)), true, Start(NIL, [])) == Accepted(t)
            && Run(Written(Number(whole.(fraction := [53]))), true, Start(NIL, [])) == Rejected
  {
    hide Run, Written;
    var whole := Numeral(false, 0x8000_0000_0000_0000, [], [], []);
    var a, b := Number(whole), Number(whole.(fraction := [53]));
    t := FirstPass([], a, []);
    var _ := FirstPass([], b, []);
    assert [] + (Written(a) + []) == Written(a) && [] + (Written(b) + []) == Written(b);
  }
}
