/**
 The steps of both passes of the JSON parser over the pieces of a text (src/json.c):
 white space, strings, and what no step of the second pass changes.
 */
module JsonSteps {
  import opened Bytes
  import opened Escape
  import opened Json
  import opened JsonFirstPass
  import opened JsonCounts
  import opened JsonSecondPass
  import opened JsonTree
  import opened JsonText
  import opened JsonValues
  import JsonPrint

  // ----- Both passes along the way -----

  /** If the text is accepted, the second pass comes by here as well. */
  ghost predicate Followed(json: Text, s: State) {
    var r := Run(json, true, s);
    r.Accepted? ==>
      && Tree(r.s.nodes)
      && exists s2 :: Sim(s, s2, r.s.nodes) && Run(json, false, s2) == Run(json, false, Start(0, r.s.nodes))
  }

  ghost predicate At(json: Text, s: State) {
    WF(json, s) && Followed(json, s)
  }

  /** The second pass comes from `s` to `t`. */
  ghost predicate Leads(json: Text, s: State, t: State) {
    At(json, t) && Run(json, true, t) == Run(json, true, s)
  }

  /** The values of the second pass. */
  function Final(json: Text, r: Result): seq<Node> {
    if r.Accepted? then
      match Run(json, false, Start(0, r.s.nodes))
      case Accepted(e) => e.nodes
      case _ => []
    else []
  }

  lemma GoOn(json: Text, s: State)
    requires At(json, s) && Step(json, true, s).More? && !NumberBegins(json, s)
    ensures Leads(json, s, Step(json, true, s).s)
  {
    hide Step, Measure, Sim, WF, Tree, Kept, Run;
    var t := Step(json, true, s).s;
    StepSound(json, s);
    RunOn(json, true, s);
    var r := Run(json, true, s);
    if r.Accepted? {
      var s2 :| Sim(s, s2, r.s.nodes) && Run(json, false, s2) == Run(json, false, Start(0, r.s.nodes));
      var u1, t2 := PairStep(json, s, s2, r.s.nodes, t);
      Behind(json, s, s2, t, t2, r.s.nodes);
    }
  }

  lemma Behind(json: Text, s: State, s2: State, t: State, t2: State, f: seq<Node>)
    requires WF(json, s) && WF(json, t) && Sim(s, s2, f) && Sim(t, t2, f) && Measure(json, t) < Measure(json, s)
    requires Step(json, false, s2) == More(t2)
    ensures Run(json, false, s2) == Run(json, false, t2)
  {
    hide Step, Measure, Sim, WF, Run;
    WFTop(json, s);
    WFTop(json, t);
    NonNegative(json, t);
    MeasureSim(json, s, s2, f);
    MeasureSim(json, t, t2, f);
    RunOn(json, false, s2);
  }

  // ----- White space and punctuation -----

  function Moved(s: State, n: nat): State {
    s.(ptr := s.ptr + n)
  }

  /** White space means nothing here. */
  predicate Between(s: State) {
    !s.flags.inString && (s.flags.done || s.flags.seekValue || (HasTop(s) && Top(s).kind == Object))
  }

  lemma {:induction false} SkipBlank(json: Text, s: State, w: Text)
    requires At(json, s) && Between(s) && Blank(w) && Here(json, s.ptr, w)
    ensures Leads(json, s, Moved(s, |w|))
    decreases |w|
  {
    hide WF, Run, Followed;
    if w != [] {
      HereAt(json, s.ptr, w, 0);
      assert w == [w[0]] + w[1..];
      HereSplit(json, s.ptr, [w[0]], w[1..]);
      BlankStep(json, s);
      GoOn(json, s);
      SkipBlank(json, Moved(s, 1), w[1..]);
    }
  }

  lemma BlankStep(json: Text, s: State)
    requires Between(s) && Blank([ByteAt(json, s.ptr)])
    ensures Step(json, true, s) == More(Moved(s, 1)) && !NumberBegins(json, s)
  {
    assert [ByteAt(json, s.ptr)][0] == ByteAt(json, s.ptr);
  }

  /** What is written before white space and something else is there. */
  lemma BlankThen(json: Text, s: State, w: Text, rest: Text)
    requires At(json, s) && Between(s) && Blank(w) && Here(json, s.ptr, w + rest)
    ensures Leads(json, s, Moved(s, |w|)) && Here(json, Moved(s, |w|).ptr, rest)
  {
    hide At, Between, Here, Blank, Leads;
    HereSplit(json, s.ptr, w, rest);
    SkipBlank(json, s, w);
  }

  // ----- Strings -----

  lemma PieceLocal(json: Text, p: nat, t: Text, j: nat, escaped: bool)
    requires Here(json, p, t)
    ensures match NextPiece(t, j, escaped)
            case Piece(bytes, next, e) => NextPiece(json, p + j, escaped) == Piece(bytes, p + next, e)
            case Quote => NextPiece(json, p + j, escaped) == Piece.Quote
            case Nothing => true
  {
    hide UnicodeEscape;
    if j < |t| {
      HereAt(json, p, t, j);
      UnicodeLocal(json, p, t, j);
    }
  }

  lemma UnicodeLocal(json: Text, p: nat, t: Text, j: nat)
    requires Here(json, p, t)
    ensures var e := UnicodeEscape(t, j);
            e.Decoded? ==> UnicodeEscape(json, p + j) == Decoded(p + e.ptr, e.bytes)
  {
    hide Utf8, Surrogates, Hex4;
    if UnicodeEscape(t, j).Decoded? {
      HexLocal(json, p, t, j + 1);
      if Hex4(t, j + 1) / 2048 == 27 {
        HexLocal(json, p, t, j + 7);
        HereAt(json, p, t, j + 5);
        HereAt(json, p, t, j + 6);
      }
    }
  }

  lemma HexLocal(json: Text, p: nat, t: Text, j: nat)
    requires Here(json, p, t) && j + 3 < |t|
    ensures Hex4(json, p + j) == Hex4(t, j)
  {
    hide Hex;
    HereAt(json, p, t, j);
    HereAt(json, p, t, j + 1);
    HereAt(json, p, t, j + 2);
    HereAt(json, p, t, j + 3);
  }

  /** A string stands for the same bytes wherever it is written. */
  lemma {:induction false} DecodeLocal(json: Text, p: nat, t: Text, j: nat, escaped: bool)
    requires Here(json, p, t) && j <= |t| && Decode(t, j, escaped).Meaning?
    ensures var d := Decode(t, j, escaped); Decode(json, p + j, escaped) == Meaning(d.bytes, p + d.end)
    decreases |t| - j
  {
    hide NextPiece, Decode;
    PieceLocal(json, p, t, j, escaped);
    JsonPrint.SomePiece(t, j, escaped);
    DecodeStep(t, j, escaped);
    DecodeStep(json, p + j, escaped);
    if NextPiece(t, j, escaped).Piece? {
      NextInside(t, j, escaped);
      DecodeLocal(json, p, t, NextPiece(t, j, escaped).next, NextPiece(t, j, escaped).escaped);
    }
  }

  lemma NextInside(t: Text, j: nat, escaped: bool)
    requires NextPiece(t, j, escaped).Piece?
    ensures j < NextPiece(t, j, escaped).next <= |t|
  {
    EscapeInside(t, j);
  }

  /** What is between quotes in the text. */
  lemma StringHere(json: Text, p: nat, raw: Text)
    requires Meaningful(raw) && Here(json, p, WrittenString(raw))
    ensures json[p] == 34 && p + 1 < |json| && Decode(json, p + 1, false) == Meaning(Contents(raw), p + 1 + |raw|)
    ensures p + |raw| + 1 < |json| && json[p + |raw| + 1] == 34
  {
    hide Decode, Meant, PairsKept;
    HereSplit(json, p, [34], raw + [34]);
    HereAt(json, p, [34], 0);
    HereAt(json, p + 1, raw + [34], |raw|);
    ReadAsMeant(raw + [34], 0, false);
    DecodeLocal(json, p + 1, raw + [34], 0, false);
  }

  /** To the closing quote of a string. */
  lemma {:induction false} StringWalk(json: Text, s: State)
    requires At(json, s) && s.flags.inString && Decode(json, s.ptr, s.flags.escaped).Meaning?
    requires s.stringLength + |Decode(json, s.ptr, s.flags.escaped).bytes| <= UINT_MAX - 8
    ensures var d := Decode(json, s.ptr, s.flags.escaped);
            Leads(json, s, JsonPrint.AtQuote(s, d.bytes, d.end))
    decreases Measure(json, s)
  {
    hide Decode, NextPiece, Step, Measure, Run, WF, Followed;
    InText(json, s);
    DecodeStep(json, s.ptr, s.flags.escaped);
    JsonPrint.PieceStep(json, s);
    JsonPrint.SomePiece(json, s.ptr, s.flags.escaped);
    var n := NextPiece(json, s.ptr, s.flags.escaped);
    if n.Piece? {
      StepSound(json, s);
      GoOn(json, s);
      StringWalk(json, Step(json, true, s).s);
    }
  }

  lemma InText(json: Text, s: State)
    requires WF(json, s) && s.flags.inString
    ensures s.ptr >= 0 && !NumberBegins(json, s)
  {
  }

  // ----- What no step of the second pass changes -----

  /** Integers were found by the first pass; a truth value is set when it is read. */
  predicate ScalarsStay(s: State, t: State, i: int) {
    && 0 <= i < |s.nodes| == |t.nodes| && t.nodes[i].integer == s.nodes[i].integer && Live(s) <= Live(t)
    && (i < Live(s) ==> t.nodes[i].boolean == s.nodes[i].boolean)
  }

  lemma NextStay(s: State, reproc: bool, i: int)
    requires Next(false, s, reproc).More? && 0 <= i < |s.nodes|
    ensures ScalarsStay(s, Next(false, s, reproc).s, i) && Live(Next(false, s, reproc).s) == Live(s)
  {
  }

  lemma {:induction false} AddStay(s: State, bytes: seq<Byte>, i: int)
    requires Add(false, s, bytes).More? && 0 <= i < |s.nodes|
    ensures ScalarsStay(s, Add(false, s, bytes).s, i)
    decreases |bytes|
  {
    if bytes != [] {
      var s' := Write(s, bytes[0]).s;
      AddStay(s'.(stringLength := s'.stringLength + 1), bytes[1..], i);
    }
  }

  lemma StringStay(json: Text, s: State, i: int)
    requires StringStep(json, false, s, ByteAt(json, s.ptr)).More? && 0 <= i < |s.nodes|
    ensures ScalarsStay(s, StringStep(json, false, s, ByteAt(json, s.ptr)).s, i)
  {
    hide Next, Add, UnicodeEscape, Unescaped;
    var b := ByteAt(json, s.ptr);
    var s' := s.(flags := s.flags.(escaped := false));
    if s.flags.escaped {
      if b == 117 {
        AddStay(s'.(ptr := UnicodeEscape(json, s.ptr).ptr), UnicodeEscape(json, s.ptr).bytes, i);
      } else {
        AddStay(s', [Unescaped(b)], i);
      }
    } else if b == 34 {
      EndStay(s, i);
    } else if b != 92 {
      AddStay(s, [b], i);
    }
  }

  lemma EndStay(s: State, i: int)
    requires EndString(false, s).More? && 0 <= i < |s.nodes|
    ensures ScalarsStay(s, EndString(false, s).s, i)
  {
    hide Next;
    var u := Write(s, 0).s.(flags := s.flags.(inString := false));
    if Top(u).kind == Str {
      NextStay(WithTop(u, Top(u).(length := s.stringLength)), false, i);
    }
  }

  lemma NewStay(s: State, kind: Kind, i: int)
    requires NewValue(false, s, kind).More? && 0 <= i < |s.nodes| && 0 <= Live(s)
    ensures var t := NewValue(false, s, kind).s; ScalarsStay(s, t, i) && Live(t) == Live(s) + 1 && t.top == Live(s)
  {
  }

  lemma WordStay(s: State, n: nat, kind: Kind, value: bool, i: int)
    requires Literal(false, s, n, kind, value).More? && 0 <= i < |s.nodes| && 0 <= Live(s)
    ensures var t := Literal(false, s, n, kind, value).s;
            && ScalarsStay(s, t, i) && Live(t) == Live(s) + 1
            && Live(s) < |t.nodes| && t.nodes[Live(s)].boolean == value
  {
    hide Next, NewValue;
    NewStay(s, kind, i);
    var y := NewValue(false, s, kind).s;
    var x := WithTop(y, Top(y).(boolean := value)).(ptr := s.ptr + n);
    NextStay(x, false, i);
    NextStay(x, false, Live(s));
  }

  /** A step over a truth value leaves it in the list. */
  lemma ValueStay(json: Text, s: State, i: int)
    requires ValueStep(json, false, s, ByteAt(json, s.ptr)).More? && 0 <= i < |s.nodes| && 0 <= Live(s)
    ensures var b, t := ByteAt(json, s.ptr), ValueStep(json, false, s, ByteAt(json, s.ptr)).s;
            && ScalarsStay(s, t, i)
            && (b == 116 || b == 102 ==> Live(s) < |t.nodes| && t.nodes[Live(s)].boolean == (b == 116))
            && Live(t) == Live(s) + 1
  {
    hide Next, Reads, SkipNumber, NewValue, Literal;
    var b := ByteAt(json, s.ptr);
    if b == 123 {
      NewStay(s, Kind.Object, i);
    } else if b == 91 {
      NewStay(s.(flags := s.flags.(seekValue := true)), Kind.Array, i);
    } else if b == 34 {
      NewStay(s.(flags := s.flags.(inString := true), stringLength := 0), Kind.Str, i);
    } else if b == 116 {
      WordStay(s, 3, Kind.Boolean, true, i);
    } else if b == 102 {
      WordStay(s, 4, Kind.Boolean, false, i);
    } else if b == 110 {
      WordStay(s, 3, Kind.Null, false, i);
    } else {
      NewStay(s, Integer, i);
      NextStay(NewValue(false, s, Integer).s.(ptr := SkipNumber(json, s.ptr)), true, i);
    }
  }

  lemma StepStay(json: Text, s: State, i: int)
    requires Step(json, false, s).More? && !InNumber(s) && 0 <= i < |s.nodes| && 0 <= Live(s)
    ensures ScalarsStay(s, Step(json, false, s).s, i)
  {
    hide Next, StringStep, ValueStep;
    var b := ByteAt(json, s.ptr);
    if s.flags.inString {
      StringStay(json, s, i);
    } else if s.flags.done {
    } else if s.flags.seekValue {
      if White(b) {
      } else if b == 93 {
        NextStay(s.(flags := s.flags.(needComma := false, seekValue := false)), false, i);
      } else if !s.flags.needComma && !s.flags.needColon {
        ValueStay(json, s.(flags := s.flags.(seekValue := false)), i);
      }
    } else if !White(b) && b == 125 {
      NextStay(s.(flags := s.flags.(needComma := false)), false, i);
    }
  }

  lemma {:induction false} RunStay(json: Text, s1: State, s2: State, f: seq<Node>, i: int) returns (e2: State)
    requires WF(json, s1) && Sim(s1, s2, f) && Tree(f) && 0 <= i < |f|
    requires Run(json, true, s1).Accepted? && Run(json, true, s1).s.nodes == f
    ensures Run(json, false, s2) == Accepted(e2) && ScalarsStay(s2, e2, i)
    decreases Measure(json, s1)
  {
    hide Step, Measure, Sim, WF, Tree, Kept, Counted, Run, HoldersHold, Untaken;
    StepSound(json, s1);
    WFTop(json, s1);
    RunOn(json, true, s1);
    MeasureSim(json, s1, s2, f);
    RunOn(json, false, s2);
    SimList(json, s1, s2, f);
    match Step(json, true, s1)
    case Finished(_) =>
      DoneSim(json, s1, s2, f);
      RunEnds(json, false, s2);
      e2 := s2;
    case More(t1) =>
      var u1, t2 := PairStep(json, s1, s2, f, t1);
      StepStay(json, s2, i);
      WFTop(json, u1);
      MeasureSim(json, u1, t2, f);
      NonNegative(json, u1);
      e2 := RunStay(json, u1, t2, f, i);
  }

  /** The values of the second pass, reached from here. */
  lemma FinalIs(json: Text, s: State) returns (s2: State)
    requires At(json, s) && Run(json, true, s).Accepted?
    ensures var r := Run(json, true, s);
            && Tree(r.s.nodes) && Sim(s, s2, r.s.nodes)
            && Run(json, false, s2) == Run(json, false, Start(0, r.s.nodes))
  {
    hide WF, Sim, Run;
    var r := Run(json, true, s);
    s2 :| Sim(s, s2, r.s.nodes) && Run(json, false, s2) == Run(json, false, Start(0, r.s.nodes));
  }

  /** A truth value is what it was read as. */
  lemma TruthRead(json: Text, s: State)
    requires At(json, s) && ValueHere(s) && Run(json, true, s).Accepted?
    requires ByteAt(json, s.ptr) == 116 || ByteAt(json, s.ptr) == 102
    ensures var e, i := Final(json, Run(json, true, s)), |s.nodes|;
            i < |e| && e[i].boolean == (ByteAt(json, s.ptr) == 116)
  {
    hide Step, Measure, Sim, WF, Tree, Kept, Counted, Run, HoldersHold, Untaken;
    var f := Run(json, true, s).s.nodes;
    var s2 := FinalIs(json, s);
    StepSound(json, s);
    WFTop(json, s);
    RunOn(json, true, s);
    MeasureSim(json, s, s2, f);
    RunOn(json, false, s2);
    SimList(json, s, s2, f);
    SimSame(s, s2, f);
    NotDone(json, s);
    var u1, t2 := PairStep(json, s, s2, f, Step(json, true, s).s);
    TruthStep(json, s2, t2);
    WFTop(json, u1);
    MeasureSim(json, u1, t2, f);
    NonNegative(json, u1);
    SimList(json, u1, t2, f);
    var e2 := RunStay(json, u1, t2, f, |s.nodes|);
  }

  lemma NotDone(json: Text, s: State)
    requires ValueHere(s)
    ensures !Step(json, true, s).Finished?
  {
  }

  lemma TruthStep(json: Text, s: State, t: State)
    requires ValueHere(s) && Step(json, false, s) == More(t) && 0 <= Live(s) <= |s.nodes|
    requires ByteAt(json, s.ptr) == 116 || ByteAt(json, s.ptr) == 102
    ensures Live(s) < |t.nodes| && t.nodes[Live(s)].boolean == (ByteAt(json, s.ptr) == 116)
    ensures Live(t) == Live(s) + 1
  {
    hide ValueStep;
    var x := s.(flags := s.flags.(seekValue := false));
    assert Step(json, false, s) == ValueStep(json, false, x, ByteAt(json, s.ptr));
    AnyNode(json, x);
    ValueStay(json, x, 0);
  }

  lemma AnyNode(json: Text, s: State)
    requires ValueStep(json, false, s, ByteAt(json, s.ptr)).More?
    ensures s.nodes != []
  {
    hide Next, Reads, SkipNumber;
  }
}
