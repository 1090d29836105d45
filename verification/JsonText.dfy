/**
 What strings of JSON mean (section 7 of RFC 8259), and what the parser makes of
 them (src/json.c).  The two agree but for surrogate pairs, whose halves the
 parser puts together with OR where an addition is meant.
 */
module JsonText {
  import opened Bytes
  import opened Json
  import opened JsonFirstPass
  import opened JsonCounts
  import opened JsonSecondPass
  import opened JsonTree

  predicate High(u: int) {
    0xd800 <= u < 0xdc00
  }

  predicate Low(u: int) {
    0xdc00 <= u < 0xe000
  }

  /** The character that a pair of surrogates stands for. */
  function CodePoint(high: int, low: int): (u: int)
    requires High(high) && Low(low)
    ensures 0x1_0000 <= u <= 0x10_ffff
  {
    0x1_0000 + (high - 0xd800) * 0x400 + (low - 0xdc00)
  }

  /** The parser reads a pair as it is meant exactly if bit 6 of the first half is clear. */
  lemma PairRead(high: int, low: int)
    requires High(high) && Low(low)
    ensures Surrogates(high, low) == CodePoint(high, low) <==> high / 64 % 2 == 0
    ensures 0x1_0000 <= Surrogates(high, low)
  {
    Halves(high, low);
  }

  lemma Halves(high: int, low: int)
    requires High(high) && Low(low)
    ensures high % 1024 == high - 0xd800 && low % 1024 == low - 0xdc00
    ensures high / 64 % 2 == ((high - 0xd800) * 1024 + (low - 0xdc00)) / 0x1_0000 % 2
  {
    var k, r := (high - 0xd800) / 64, (high - 0xd800) % 64;
    assert high == 64 * (864 + k) + r;
    assert (high - 0xd800) * 1024 + (low - 0xdc00) == 0x1_0000 * k + (r * 1024 + low - 0xdc00);
  }

  /** U+20000 is read as U+10000. */
  lemma PairMisread()
    ensures CodePoint(0xd840, 0xdc00) == 0x2_0000 && Surrogates(0xd840, 0xdc00) == 0x1_0000
  {
  }

  // ----- Hexadecimal digits and UTF-8 -----

  function HexLetter(n: int, upper: bool): Byte
    requires 0 <= n < 16
  {
    if n < 10 then n + 48 else if upper then n + 55 else n + 87
  }

  /** Four hexadecimal digits, in either case, are read as the number they write. */
  lemma HexRead(json: Text, p: nat, a: int, b: int, c: int, d: int, upper: bool)
    requires 0 <= a < 16 && 0 <= b < 16 && 0 <= c < 16 && 0 <= d < 16 && p + 4 <= |json|
    requires json[p] == HexLetter(a, upper) && json[p + 1] == HexLetter(b, upper)
    requires json[p + 2] == HexLetter(c, upper) && json[p + 3] == HexLetter(d, upper)
    ensures Hex4(json, p) == a * 4096 + b * 256 + c * 16 + d
  {
  }

  /** A code point is encoded as RFC 3629 says: in as few bytes as it needs, six bits in each but the first. */
  lemma Utf8Encodes(u: int)
    requires 0 <= u < 0x20_0000
    ensures var s := Utf8(u);
            && |s| == (if u < 0x80 then 1 else if u < 0x800 then 2 else if u < 0x1_0000 then 3 else 4)
            && (|s| == 1 ==> u == s[0])
            && (|s| == 2 ==> 0xc0 <= s[0] < 0xe0 && u == (s[0] - 0xc0) * 64 + Six(s, 1))
            && (|s| == 3 ==> 0xe0 <= s[0] < 0xf0 && u == (s[0] - 0xe0) * 4096 + Six(s, 1) * 64 + Six(s, 2))
            && (|s| == 4 ==>
                  0xf0 <= s[0] < 0xf8 && u == (s[0] - 0xf0) * 262144 + Six(s, 1) * 4096 + Six(s, 2) * 64 + Six(s, 3))
            && forall i | 0 < i < |s| :: 0 <= Six(s, i) < 64
  {
    var q := u / 64;
    assert u / 4096 == q / 64 && u / 262144 == q / 64 / 64;
  }

  function Six(s: seq<Byte>, i: nat): int
    requires i < |s|
  {
    var b: int := s[i];
    b - 0x80
  }

  // ----- The meaning of strings -----

  /** The escape whose `u` is at `p`; surrogates have a meaning only in pairs. */
  function MeantEscape(json: Text, p: int): Unicode {
    if |json| - p <= 4 then Invalid
    else
      var u := Hex4(json, p + 1);
      if u == -1 || Low(u) then Invalid
      else if High(u) then
        if PairAt(json, p) then Decoded(p + 10, Utf8(CodePoint(u, Hex4(json, p + 7)))) else Invalid
      else Decoded(p + 4, Utf8(u))
  }

  /** Two escapes that are the halves of a pair; the `u` of the first is at `p`. */
  predicate PairAt(json: Text, p: int) {
    && |json| - p > 10 && High(Hex4(json, p + 1))
    && ByteAt(json, p + 5) == 92 && ByteAt(json, p + 6) == 117 && Low(Hex4(json, p + 7))
  }

  predicate EscapeLetter(b: Byte) {
    b == 34 || b == 92 || b == 47 || b == 98 || b == 102 || b == 110 || b == 114 || b == 116
  }

  function MeantPiece(json: Text, p: int, escaped: bool): Piece {
    var b := ByteAt(json, p);
    if escaped then
      if b == 117 then
        match MeantEscape(json, p)
        case Invalid => Nothing
        case Decoded(q, bytes) => Piece(bytes, q + 1, false)
      else if EscapeLetter(b) then Piece([Unescaped(b)], p + 1, false)
      else Nothing
    else if b < 32 then Nothing
    else if b == 92 then Piece([], p + 1, true)
    else if b == 34 then Quote
    else Piece([b], p + 1, false)
  }

  /** The meaning of the text from `p` to the closing quote. */
  function Meant(json: Text, p: int, escaped: bool): Meaning
    decreases |json| - p
  {
    match MeantPiece(json, p, escaped)
    case Nothing => NoMeaning
    case Quote => Meaning([], p)
    case Piece(bytes, next, escaped') =>
      if p >= |json| then NoMeaning
      else
        match Meant(json, next, escaped')
        case NoMeaning => NoMeaning
        case Meaning(rest, end) => Meaning(bytes + rest, end)
  }

  /** No pair from `p` to the closing quote is misread. */
  predicate PairsKept(json: Text, p: int, escaped: bool)
    decreases |json| - p
  {
    match MeantPiece(json, p, escaped)
    case Piece(_, next, escaped') => p < |json| && !MisreadAt(json, p, escaped) && PairsKept(json, next, escaped')
    case _ => true
  }

  predicate MisreadAt(json: Text, p: int, escaped: bool) {
    escaped && ByteAt(json, p) == 117 && PairAt(json, p) && Hex4(json, p + 1) / 64 % 2 == 1
  }

  lemma Utf8Pair(u: int, v: int)
    requires 0x1_0000 <= u < 0x20_0000 && 0x1_0000 <= v < 0x20_0000 && Utf8(u) == Utf8(v)
    ensures u == v
  {
    hide Utf8;
    Utf8Back(u);
    Utf8Back(v);
  }

  function Packed(a: int, b: int, c: int, d: int): int {
    262144 * a + 4096 * b + 64 * c + d
  }

  lemma Utf8Back(u: int)
    requires 0x1_0000 <= u < 0x20_0000
    ensures var s := Utf8(u);
            |s| == 4 && u + 63447168 == Packed(s[0], s[1], s[2], s[3])
  {
    var q := u / 64;
    assert u / 4096 == q / 64 && u / 262144 == q / 64 / 64;
  }

  /** One piece is read as it is meant, or is a pair that is misread. */
  lemma PieceRead(json: Text, p: int, escaped: bool)
    requires MeantPiece(json, p, escaped) != Nothing
    ensures var m, r := MeantPiece(json, p, escaped), NextPiece(json, p, escaped);
            if MisreadAt(json, p, escaped)
            then m.Piece? && r == m.(bytes := r.bytes) && |r.bytes| == |m.bytes| && r.bytes != m.bytes
            else r == m
    ensures MeantPiece(json, p, escaped).Piece? ==> p < |json| && p < MeantPiece(json, p, escaped).next
  {
    hide Hex4;
    if escaped && ByteAt(json, p) == 117 {
      var u := Hex4(json, p + 1);
      if PairAt(json, p) {
        var u2 := Hex4(json, p + 7);
        PairRead(u, u2);
        if Utf8(Surrogates(u, u2)) == Utf8(CodePoint(u, u2)) {
          Utf8Pair(Surrogates(u, u2), CodePoint(u, u2));
        }
      }
    }
  }

  lemma SameRest(a: seq<Byte>, b: seq<Byte>, c: seq<Byte>, d: seq<Byte>)
    requires |a| == |b| && a + c == b + d
    ensures a == b && c == d
  {
    assert (a + c)[..|a|] == (b + d)[..|b|];
    assert (a + c)[|a|..] == (b + d)[|b|..];
  }

  /** A string with a meaning is read, to its end; and as it is meant exactly if no pair is misread. */
  lemma {:induction false} ReadAsMeant(json: Text, p: int, escaped: bool)
    requires Meant(json, p, escaped).Meaning?
    ensures var r, m := Decode(json, p, escaped), Meant(json, p, escaped);
            r.Meaning? && r.end == m.end && (r.bytes == m.bytes <==> PairsKept(json, p, escaped))
    decreases |json| - p
  {
    hide NextPiece, MeantPiece, MisreadAt;
    PieceRead(json, p, escaped);
    var m, r := MeantPiece(json, p, escaped), NextPiece(json, p, escaped);
    DecodeStep(json, p, escaped);
    if m.Piece? {
      ReadAsMeant(json, m.next, m.escaped);
      var c, d := Decode(json, m.next, m.escaped).bytes, Meant(json, m.next, m.escaped).bytes;
      if r.bytes + c == m.bytes + d {
        SameRest(r.bytes, m.bytes, c, d);
      }
    }
  }

  lemma OneText(n: Node, a: seq<Byte>, b: seq<Byte>)
    requires IsText(n, a)
    ensures IsText(n, b) <==> b == a
  {
    if IsText(n, b) {
      forall j | 0 <= j < |a|
        ensures a[j] == b[j]
      {
        assert n.buffer[j] == Full(a[j]);
      }
    }
  }

  // ----- All strings of a text -----

  /** Value `i` of the list is begun in state `s` of the first pass, with a quote. */
  ghost predicate StringBegins(json: Text, s: State, i: int) {
    WF(json, s) && |s.nodes| == i && ValueHere(s) && ByteAt(json, s.ptr) == 34
  }

  /** A value that is not begun with a quote is no string. */
  lemma NoString(json: Text, s1: State, f: seq<Node>, t1: State)
    requires WF(json, s1) && Begins(json, s1) && ByteAt(json, s1.ptr) != 34
    requires Step(json, true, s1) == More(t1) && Counted(t1, f)
    ensures |s1.nodes| < |f| && f[|s1.nodes|].kind != Str
  {
    hide Tree, ChainRoom, Room, Reads, SkipNumber;
    NewKind(json, s1, t1);
    var i := |s1.nodes|;
    assert Grown(t1.nodes[i], f[i], t1.flags.inString && i == t1.top, InNumber(t1) && i == t1.top);
  }

  lemma NewKind(json: Text, s: State, t: State)
    requires NIL <= s.top < |s.nodes| && Begins(json, s) && ByteAt(json, s.ptr) != 34 && Step(json, true, s) == More(t)
    ensures |t.nodes| == |s.nodes| + 1 && t.nodes[|s.nodes|].kind != Str
  {
    hide Reads, SkipNumber;
  }

  lemma {:induction false} FindString(json: Text, s1: State, s2: State, f: seq<Node>, i: int)
    returns (s: State, e2: State)
    requires WF(json, s1) && Sim(s1, s2, f) && Tree(f) && |s1.nodes| <= i < |f| && f[i].kind == Str
    requires Run(json, true, s1).Accepted? && Run(json, true, s1).s.nodes == f
    ensures StringBegins(json, s, i) && Run(json, true, s) == Run(json, true, s1) &&
            Run(json, false, s2) == Accepted(e2)
    ensures Decode(json, s.ptr + 1, false).Meaning? && |e2.nodes| == |f|
    ensures IsText(e2.nodes[i], Decode(json, s.ptr + 1, false).bytes)
    decreases Measure(json, s1)
  {
    hide Step, Measure, Sim, WF, Tree, Kept, Counted, IsText, Run, Decode, ValueHere, Stays, Joins, Live, HoldersHold,
         Untaken;
    if ValueHere(s1) && ByteAt(json, s1.ptr) == 34 && |s1.nodes| == i {
      s := s1;
      e2 := StringIsDecoded(json, s1, s2, f);
      var e := RunSim(json, s1, s2, f);
      SimList(json, s1, s2, f);
      EndLength(json, s1, e, f);
    } else {
      StepSound(json, s1);
      WFTop(json, s1);
      RunOn(json, true, s1);
      if Step(json, true, s1).Finished? {
        RunEnds(json, true, s1);
      }
      var t1 := Step(json, true, s1).s;
      MeasureSim(json, s1, s2, f);
      RunOn(json, false, s2);
      RunCounts(json, t1);
      var u1, t2 := PairStep(json, s1, s2, f, t1);
      WFTop(json, u1);
      MeasureSim(json, u1, t2, f);
      NonNegative(json, u1);
      NotYet(json, s1, s2, f, t1, u1, t2, i);
      s, e2 := FindString(json, u1, t2, f, i);
    }
  }

  lemma EndLength(json: Text, s1: State, e: State, f: seq<Node>)
    requires Run(json, true, s1).Accepted? && Run(json, true, s1).s.nodes == f && Sim(Run(json, true, s1).s, e, f)
    ensures |e.nodes| == |f|
  {
    hide Run, NodeSim;
  }

  /** One step of the second pass does not go past value `i`, if that is a string that is not begun here. */
  lemma NotYet(json: Text, s1: State, s2: State, f: seq<Node>, t1: State, u1: State, t2: State, i: int)
    requires WF(json, s1) && WF(json, u1) && Sim(s1, s2, f) && Sim(u1, t2, f) && Tree(f)
    requires |s1.nodes| <= i < |f| && f[i].kind == Str &&
             !(ValueHere(s1) && ByteAt(json, s1.ptr) == 34 && |s1.nodes| == i)
    requires Step(json, true, s1) == More(t1) && Counted(t1, f) && Step(json, false, s2) == More(t2)
    ensures |u1.nodes| <= i
  {
    hide Step, WF, Counted, Tree, Sim, ValueHere, HoldersHold, Untaken, Joined, Bones;
    SimList(json, s1, s2, f);
    SimList(json, u1, t2, f);
    SimSame(s1, s2, f);
    var y := StepMoves(json, s2);
    SameHere(s1, s2);
    if Begins(json, s1) && |s1.nodes| == i {
      NoString(json, s1, f, t1);
    }
  }

  lemma SameHere(s1: State, s2: State)
    requires s2.flags == s1.flags
    ensures ValueHere(s1) <==> ValueHere(s2)
  {
  }

  /**
   Every string value of an accepted text: the bytes that its text stands for to
   the parser, which are those that it means exactly if no pair is misread.
   */
  lemma EveryString(json: Text, i: nat) returns (s: State, e2: State)
    requires var r := Run(json, true, Start(NIL, [])); r.Accepted? && i < |r.s.nodes| && r.s.nodes[i].kind == Str
    ensures var r := Run(json, true, Start(NIL, []));
            && StringBegins(json, s, i) && Run(json, true, s) == r
            && Run(json, false, Start(0, r.s.nodes)) == Accepted(e2) && i < |e2.nodes|
    ensures var r := Decode(json, s.ptr + 1, false); r.Meaning? && IsText(e2.nodes[i], r.bytes)
    ensures var m := Meant(json, s.ptr + 1, false);
            m.Meaning? ==> (IsText(e2.nodes[i], m.bytes) <==> PairsKept(json, s.ptr + 1, false))
  {
    hide Run, Tree, WF, Sim, IsText, Decode, Meant, PairsKept, ValueHere;
    var f := Run(json, true, Start(NIL, [])).s.nodes;
    StartSims(json, Run(json, true, Start(NIL, [])).s);
    s, e2 := FindString(json, Start(NIL, []), Start(0, f), f, i);
    if Meant(json, s.ptr + 1, false).Meaning? {
      ReadAsMeant(json, s.ptr + 1, false);
      OneText(e2.nodes[i], Decode(json, s.ptr + 1, false).bytes, Meant(json, s.ptr + 1, false).bytes);
    }
  }
}
