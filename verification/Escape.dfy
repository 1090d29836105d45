/**
 Two printers and the parsers that undo them: escape() (src/funcs.c) against the
 string tokens of expressions, and PrintJSONString (src/calendar.c) against the
 strings of the JSON parser.
 */
module Escape {
  import opened Bytes
  import opened ExprLex

  /** A hexadecimal digit in lower case. */
  function HexDigit(n: int): Byte
    requires 0 <= n < 16
  {
    if n < 10 then 48 + n else 87 + n
  }

  function EscapedChar(c: Byte): Text {
    if c == 7 then [BACKSLASH, 97]
    else if c == 8 then [BACKSLASH, 98]
    else if c == 12 then [BACKSLASH, 102]
    else if c == 10 then [BACKSLASH, 110]
    else if c == 13 then [BACKSLASH, 114]
    else if c == 9 then [BACKSLASH, 116]
    else if c == 11 then [BACKSLASH, 118]
    else if c == BACKSLASH then [BACKSLASH, BACKSLASH]
    else if c == QUOTE then [BACKSLASH, QUOTE]
    else if 0 < c < 32 || c == 127 then [BACKSLASH, 120, HexDigit(c / 16), HexDigit(c % 16)]
    else [c]
  }

  function Escaped(s: Text): Text {
    if s == [] then [] else EscapedChar(s[0]) + Escaped(s[1..])
  }

  lemma {:induction false} EscapedConcat(a: Text, b: Text)
    ensures Escaped(a + b) == Escaped(a) + Escaped(b)
  {
    if a == [] {
      assert a + b == b;
    } else {
      assert (a + b)[0] == a[0] && (a + b)[1..] == a[1..] + b;
      EscapedConcat(a[1..], b);
    }
  }

  method FEscape(s: Text, includeQuotes: bool) returns (r: Text)
    ensures r == if includeQuotes then [QUOTE] + Escaped(s) + [QUOTE] else Escaped(s)
  {
    hide Escaped, EscapedChar;
    r := if includeQuotes then [QUOTE] else [];
    EscapedEnds(s);
    for i := 0 to |s|
      invariant r == (if includeQuotes then [QUOTE] else []) + Escaped(s[..i])
    {
      EscapedNext(s, i);
      var e := EscapeChar(s[i]);
      r := r + e;
    }
    if includeQuotes {
      r := r + [QUOTE];
    }
  }

  lemma EscapedEnds(s: Text)
    ensures s[..0] == [] && Escaped([]) == [] && s[..|s|] == s
  {
  }

  lemma EscapedNext(s: Text, i: nat)
    requires i < |s|
    ensures Escaped(s[..i + 1]) == Escaped(s[..i]) + EscapedChar(s[i])
  {
    hide EscapedChar;
    assert s[..i + 1] == s[..i] + [s[i]];
    EscapedConcat(s[..i], [s[i]]);
    assert Escaped([s[i]]) == EscapedChar(s[i]) + Escaped([]);
  }

  method EscapeChar(c: Byte) returns (r: Text)
    ensures r == EscapedChar(c)
  {
    match c
    case 7 => r := [BACKSLASH, 97];
    case 8 => r := [BACKSLASH, 98];
    case 12 => r := [BACKSLASH, 102];
    case 10 => r := [BACKSLASH, 110];
    case 13 => r := [BACKSLASH, 114];
    case 9 => r := [BACKSLASH, 116];
    case 11 => r := [BACKSLASH, 118];
    case 92 => r := [BACKSLASH, BACKSLASH];
    case 34 => r := [BACKSLASH, QUOTE];
    case _ =>
      if 0 < c < 32 || c == 127 {
        r := [BACKSLASH, 120, HexDigit(c / 16), HexDigit(c % 16)];
      } else {
        r := [c];
      }
  }

  /** Text `t` stands in `s` from `p` on. */
  predicate Here(s: Text, p: int, t: Text) {
    0 <= p && p + |t| <= |s| && s[p..p + |t|] == t
  }

  lemma HereSplit(s: Text, p: int, a: Text, b: Text)
    requires Here(s, p, a + b)
    ensures Here(s, p, a) && Here(s, p + |a|, b)
  {
    assert s[p..p + |a|] == (a + b)[..|a|] == a;
    assert s[p + |a|..p + |a| + |b|] == (a + b)[|a|..] == b;
  }

  lemma HereAt(s: Text, p: int, t: Text, i: int)
    requires Here(s, p, t) && 0 <= i < |t|
    ensures p + i < |s| && s[p + i] == t[i]
  {
    assert s[p..p + |t|][i] == t[i];
  }

  /** One escaped character is read as that character, whatever follows. */
  lemma CharRoundTrip(s: Text, p: nat, c: Byte, token: Text, last: Byte) returns (last': Byte)
    requires c != 0 && Here(s, p, EscapedChar(c))
    ensures LexString(s, p, token, last) == LexString(s, p + |EscapedChar(c)|, token + [c], last')
  {
    var t := EscapedChar(c);
    HereAt(s, p, t, 0);
    last' := last;
    if |t| > 1 {
      HereAt(s, p, t, 1);
      EscapeRead(s, p, c);
    } else {
      last' := c;
    }
  }

  lemma EscapeRead(s: Text, p: nat, c: Byte)
    requires c != 0 && Here(s, p, EscapedChar(c)) && |EscapedChar(c)| > 1
    ensures p + 1 < |s| && EscapeAt(s, p + 1) == ExprLex.Escape(c, p + |EscapedChar(c)|)
  {
    var t := EscapedChar(c);
    HereAt(s, p, t, 1);
    if |t| > 2 {
      HereAt(s, p, t, 2);
      HereAt(s, p, t, 3);
      HexBack(c);
    }
  }

  lemma HexBack(c: Byte)
    ensures Hex(HexDigit(c / 16)) * 16 + Hex(HexDigit(c % 16)) == c
    ensures Hex(HexDigit(c / 16)) != 255 && Hex(HexDigit(c % 16)) != 255
  {
  }

  lemma {:induction false} StringRoundTrip(s: Text, p: nat, t: Text, token: Text, last: Byte)
    requires NulFree(t) && Here(s, p, Escaped(t) + [QUOTE])
    ensures LexString(s, p, token, last) == Token(token + t + [QUOTE], p + |Escaped(t)| + 1)
    decreases |t|
  {
    hide EscapedChar;
    if t == [] {
      HereAt(s, p, [QUOTE], 0);
      assert Escaped(t) + [QUOTE] == [QUOTE];
      assert token + t == token;
    } else {
      var e := EscapedChar(t[0]);
      assert Escaped(t) + [QUOTE] == e + (Escaped(t[1..]) + [QUOTE]);
      HereSplit(s, p, e, Escaped(t[1..]) + [QUOTE]);
      var last' := CharRoundTrip(s, p, t[0], token, last);
      assert NulFree(t[1..]);
      StringRoundTrip(s, p + |e|, t[1..], token + [t[0]], last');
      assert token + [t[0]] + t[1..] == token + t;
    }
  }

  /** What escape() prints with quotes is one token, wherever it stands, and its value is the string. */
  lemma EscapeRoundTrip(s: Text, p: nat, t: Text, timeSep: Byte)
    requires NulFree(t) && Here(s, p, [QUOTE] + Escaped(t) + [QUOTE])
    ensures Lex(s, p, timeSep) == Token([QUOTE] + t + [QUOTE], p + |Escaped(t)| + 2)
    ensures StringValue([QUOTE] + t + [QUOTE]) == t
  {
    hide LexString, LexDate, LexWord, SkipIds, Escaped;
    assert [QUOTE] + Escaped(t) + [QUOTE] == [QUOTE] + (Escaped(t) + [QUOTE]);
    HereSplit(s, p, [QUOTE], Escaped(t) + [QUOTE]);
    HereAt(s, p, [QUOTE], 0);
    StringRoundTrip(s, p + 1, t, [QUOTE], QUOTE);
    assert ([QUOTE] + t + [QUOTE])[1..|t| + 1] == t;
  }
}

module JsonPrint {
  import opened Bytes
  import opened Json
  import opened JsonFirstPass
  import opened JsonSecondPass
  import Escape

  function PrintedChar(c: Byte): Text {
    if c == 8 then [92, 98]
    else if c == 12 then [92, 102]
    else if c == 10 then [92, 110]
    else if c == 13 then [92, 114]
    else if c == 9 then [92, 116]
    else if c == 34 then [92, 34]
    else if c == 92 then [92, 92]
    else if 0 < c < 32 || c == 127 then [92, 117, 48, 48, Escape.HexDigit(c / 16), Escape.HexDigit(c % 16)]
    else [c]
  }

  function Printed(s: Text): Text {
    if s == [] then [] else PrintedChar(s[0]) + Printed(s[1..])
  }

  lemma {:induction false} PrintedConcat(a: Text, b: Text)
    ensures Printed(a + b) == Printed(a) + Printed(b)
  {
    if a == [] {
      assert a + b == b;
    } else {
      assert (a + b)[0] == a[0] && (a + b)[1..] == a[1..] + b;
      PrintedConcat(a[1..], b);
    }
  }

  method PrintJSONString(s: Text) returns (out: Text)
    ensures out == Printed(s)
  {
    hide Printed, PrintedChar;
    out := [];
    PrintedEnds(s);
    for i := 0 to |s|
      invariant out == Printed(s[..i])
    {
      PrintedNext(s, i);
      var e := PrintChar(s[i]);
      out := out + e;
    }
  }

  lemma PrintedEnds(s: Text)
    ensures s[..0] == [] && Printed([]) == [] && s[..|s|] == s
  {
  }

  lemma PrintedNext(s: Text, i: nat)
    requires i < |s|
    ensures Printed(s[..i + 1]) == Printed(s[..i]) + PrintedChar(s[i])
  {
    hide PrintedChar;
    assert s[..i + 1] == s[..i] + [s[i]];
    PrintedConcat(s[..i], [s[i]]);
    assert Printed([s[i]]) == PrintedChar(s[i]) + Printed([]);
  }

  method PrintChar(c: Byte) returns (r: Text)
    ensures r == PrintedChar(c)
  {
    match c
    case 8 => r := [92, 98];
    case 12 => r := [92, 102];
    case 10 => r := [92, 110];
    case 13 => r := [92, 114];
    case 9 => r := [92, 116];
    case 34 => r := [92, 34];
    case 92 => r := [92, 92];
    case _ =>
      if 0 < c < 32 || c == 127 {
        r := [92, 117, 48, 48, Escape.HexDigit(c / 16), Escape.HexDigit(c % 16)];
      } else {
        r := [c];
      }
  }

  /** One printed character is decoded to that character. */
  lemma CharDecodes(json: Text, p: int, c: Byte)
    requires c != 0 && Escape.Here(json, p, PrintedChar(c))
    ensures var n := NextPiece(json, p, false);
            if |PrintedChar(c)| == 1 then n == Piece([c], p + 1, false)
            else n == Piece([], p + 1, true) && NextPiece(json, p + 1, true) == Piece([c], p + |PrintedChar(c)|, false)
    requires p + |PrintedChar(c)| < |json|
  {
    var t := PrintedChar(c);
    Escape.HereAt(json, p, t, 0);
    if |t| > 1 {
      Escape.HereAt(json, p, t, 1);
      if |t| > 2 {
        Escape.HereAt(json, p, t, 2);
        Escape.HereAt(json, p, t, 3);
        Escape.HereAt(json, p, t, 4);
        Escape.HereAt(json, p, t, 5);
        Escape.HexBack(c);
        assert Hex4(json, p + 2) == c;
      }
    }
  }

  /** The printed string and a closing quote mean the string, in any text. */
  lemma {:induction false} PrintedDecodes(json: Text, p: int, t: Text)
    requires NulFree(t) && Escape.Here(json, p, Printed(t) + [34])
    ensures Decode(json, p, false) == Meaning(t, p + |Printed(t)|)
    decreases |t|
  {
    hide NextPiece, Decode, PrintedChar;
    if t == [] {
      assert Printed(t) + [34] == [34];
      Escape.HereAt(json, p, [34], 0);
      QuoteHere(json, p);
      DecodeStep(json, p, false);
    } else {
      var e, rest := PrintedChar(t[0]), Printed(t[1..]) + [34];
      assert Printed(t) + [34] == e + rest;
      Escape.HereSplit(json, p, e, rest);
      assert NulFree(t[1..]);
      PrintedDecodes(json, p + |e|, t[1..]);
      DecodeChar(json, p, t[0]);
      assert [t[0]] + t[1..] == t;
    }
  }

  lemma DecodeChar(json: Text, p: int, c: Byte)
    requires c != 0 && Escape.Here(json, p, PrintedChar(c)) && p + |PrintedChar(c)| < |json|
    requires Decode(json, p + |PrintedChar(c)|, false).Meaning?
    ensures var rest := Decode(json, p + |PrintedChar(c)|, false);
            Decode(json, p, false) == Meaning([c] + rest.bytes, rest.end)
  {
    hide NextPiece, Decode, PrintedChar;
    CharDecodes(json, p, c);
    DecodeStep(json, p, false);
    if |PrintedChar(c)| != 1 {
      DecodeStep(json, p + 1, true);
    }
  }

  lemma QuoteHere(json: Text, p: int)
    requires 0 <= p < |json| && json[p] == 34
    ensures NextPiece(json, p, false) == Quote
  {
  }

  // ----- The whole way through the parser -----

  lemma PieceStep(json: Text, s: State)
    requires WF(json, s) && s.flags.inString && s.stringLength <= UINT_MAX - 8
    ensures match NextPiece(json, s.ptr, s.flags.escaped)
            case Piece(bytes, next, escaped) =>
              Step(json, true, s) == More(s.(ptr := next, flags := s.flags.(escaped := escaped),
                  stringLength := s.stringLength + |bytes|))
            case Quote => ByteAt(json, s.ptr) == 34 && !s.flags.escaped
            case Nothing => true
  {
    hide Add, UnicodeEscape, EndString, Tree, Unescaped;
    var b := ByteAt(json, s.ptr);
    var s' := s.(flags := s.flags.(escaped := false));
    if !s.flags.escaped {
      AddSound(s, [b]);
    } else if b == 117 {
      var e := UnicodeEscape(json, s.ptr);
      if e.Decoded? {
        AddSound(s'.(ptr := e.ptr), e.bytes);
      }
    } else {
      AddSound(s', [Unescaped(b)]);
    }
  }

  function AtQuote(s: State, bytes: Text, end: int): State {
    s.(ptr := end, flags := s.flags.(escaped := false), stringLength := s.stringLength + |bytes|)
  }

  /** The first pass gets to the closing quote of a string that means something. */
  lemma {:induction false} FirstString(json: Text, s: State)
    requires WF(json, s) && s.flags.inString && Decode(json, s.ptr, s.flags.escaped).Meaning?
    requires s.stringLength + |Decode(json, s.ptr, s.flags.escaped).bytes| <= UINT_MAX - 8
    ensures var d := Decode(json, s.ptr, s.flags.escaped);
            var e := AtQuote(s, d.bytes, d.end);
            Run(json, true, s) == Run(json, true, e) && WF(json, e) && ByteAt(json, d.end) == 34
    decreases Measure(json, s)
  {
    hide Decode, NextPiece, Step, Measure, Run, Tree;
    DecodeStep(json, s.ptr, s.flags.escaped);
    PieceStep(json, s);
    StepSound(json, s);
    RunOn(json, true, s);
    SomePiece(json, s.ptr, s.flags.escaped);
    var p := NextPiece(json, s.ptr, s.flags.escaped);
    if p.Piece? {
      FirstString(json, Step(json, true, s).s);
    }
  }

  lemma SomePiece(json: Text, p: int, escaped: bool)
    requires Decode(json, p, escaped).Meaning?
    ensures NextPiece(json, p, escaped) != Nothing
  {
  }

  function Quoted(s: Text): Text {
    [34] + Printed(s) + [34]
  }

  /** After the opening quote of a text that is one string. */
  function InOnlyString(): State {
    var s := Start(NIL, []);
    s.(ptr := 1, flags := s.flags.(seekValue := false, inString := true),
       nodes := [NEW_NODE.(kind := Str, parent := NIL)], root := 0, top := 0, alloc := 0)
  }

  lemma FirstSteps(json: Text)
    requires |json| > 1 && json[0] == 34
    ensures Run(json, true, Start(NIL, [])) == Run(json, true, InOnlyString()) && WF(json, InOnlyString()) &&
            WF(json, Start(NIL, []))
    ensures ValueHere(Start(NIL, []))
  {
    hide Run;
    var s := Start(NIL, []);
    RunOn(json, true, s);
    assert Step(json, true, s) == More(InOnlyString());
  }

  lemma LastSteps(json: Text, length: nat) returns (t: State)
    requires |json| > 1 && json[|json| - 1] == 34 && length <= UINT_MAX - 8
    ensures Run(json, true, InOnlyString().(ptr := |json| - 1, stringLength := length)) == Accepted(t) && |t.nodes| == 1
  {
    var s := InOnlyString().(ptr := |json| - 1, stringLength := length);
    t := s.(ptr := |json|, flags := s.flags.(inString := false, needComma := true, done := true),
                nodes := [NEW_NODE.(kind := Str, parent := NIL, length := length)]);
    assert Step(json, true, s) == More(t);
    assert Step(json, true, t) == Finished(t);
  }

  /** What PrintJSONString prints between quotes is parsed as a single value, and that is the string. */
  lemma PrintRoundTrip(t: Text) returns (e2: State)
    requires NulFree(t) && |t| <= UINT_MAX - 8
    ensures var json := Quoted(t); var r := Run(json, true, Start(NIL, []));
            r.Accepted? && Run(json, false, Start(0, r.s.nodes)) == Accepted(e2)
            && |e2.nodes| == 1 && IsText(e2.nodes[0], t)
  {
    hide Run, Decode, Printed, WF, IsText, Tree, Sim;
    var json := Quoted(t);
    assert json == [34] + (Printed(t) + [34]);
    assert json[1..1 + |Printed(t) + [34]|] == Printed(t) + [34];
    FirstSteps(json);
    PrintedDecodes(json, 1, t);
    FirstString(json, InOnlyString());
    var last := LastSteps(json, |t|);
    var f := last.nodes;
    StartSims(json, last);
    e2 := TwoPasses(json);
    var _ := StringIsDecoded(json, Start(NIL, []), Start(0, f), f);
  }
}
