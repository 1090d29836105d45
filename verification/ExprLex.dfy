/**
 The tokens of expressions (parse_expr_token in src/expr.c).
 */
module ExprLex {
  import opened Bytes

  const QUOTE: Byte := 34
  const BACKSLASH: Byte := 92

  datatype Error = E_NO_MEM | E_PARSE_ERR | E_MISS_QUOTE | E_ILLEGAL_CHAR

  /** A token and the place behind it; the empty token at the end of the text. */
  datatype LexResult = Token(text: Text, next: nat) | LexError(error: Error)

  predicate Space(c: Byte) {
    c == 32 || 9 <= c <= 13
  }

  /** A backslash counts as white space between tokens. */
  predicate IsEmpty(c: Byte) {
    Space(c) || c == BACKSLASH
  }

  predicate Alpha(c: Byte) {
    65 <= c <= 90 || 97 <= c <= 122
  }

  predicate IdChar(c: Byte) {
    Alpha(c) || Digit(c) || c == 95
  }

  /** What can follow in a word: times are written with colons, dots or the time separator. */
  predicate WordChar(c: Byte, timeSep: Byte) {
    IdChar(c) || c == 58 || c == 46 || (c != 0 && c == timeSep)
  }

  function SkipEmpty(s: Text, p: nat): (q: nat)
    ensures p <= q && (p <= |s| ==> q <= |s|)
    decreases |s| - p
  {
    if p < |s| && IsEmpty(s[p]) then SkipEmpty(s, p + 1) else p
  }

  /** The end of the characters of one kind from `p` on. */
  function SkipIds(s: Text, p: nat): (q: nat)
    ensures p <= q && (p <= |s| ==> q <= |s|)
    decreases |s| - p
  {
    if p < |s| && IdChar(s[p]) then SkipIds(s, p + 1) else p
  }

  function SkipWord(s: Text, p: nat, timeSep: Byte): (q: nat)
    ensures p <= q && (p <= |s| ==> q <= |s|)
    decreases |s| - p
  {
    if p < |s| && WordChar(s[p], timeSep) then SkipWord(s, p + 1, timeSep) else p
  }

  // ----- Quoted strings -----

  datatype Escape = Escape(value: Byte, next: nat) | BadEscape

  /** The escape sequence whose letter is at `p`. */
  function EscapeAt(s: Text, p: nat): Escape
    requires p < |s|
  {
    var c := s[p];
    if c == 97 then Escape(7, p + 1)
    else if c == 98 then Escape(8, p + 1)
    else if c == 102 then Escape(12, p + 1)
    else if c == 110 then Escape(10, p + 1)
    else if c == 114 then Escape(13, p + 1)
    else if c == 116 then Escape(9, p + 1)
    else if c == 118 then Escape(11, p + 1)
    else if c == 120 then HexEscape(s, p)
    else Escape(c, p + 1)
  }

  /** One or two hexadecimal digits after an x; without any, the x stands for itself. */
  function HexEscape(s: Text, p: nat): Escape {
    var a, b := Hex(ByteAt(s, p + 1)), Hex(ByteAt(s, p + 2));
    if a == 255 then Escape(120, p + 1)
    else if b == 255 then (if a == 0 then BadEscape else Escape(a, p + 2))
    else if a * 16 + b == 0 then BadEscape
    else Escape(a * 16 + b, p + 3)
  }

  /**
   The rest of a string token.  `c` is the last character that was read as it
   stands; where the text ends it decides whether the string is taken as closed.
   */
  function LexString(s: Text, p: nat, token: Text, c: Byte): LexResult
    decreases |s| - p
  {
    if p >= |s| then (if c == QUOTE then Token(token, p) else LexError(E_MISS_QUOTE))
    else if s[p] == BACKSLASH then
      if p + 1 >= |s| then LexError(E_MISS_QUOTE)
      else
        match EscapeAt(s, p + 1)
        case BadEscape => LexError(E_NO_MEM)
        case Escape(value, next) => LexString(s, next, token + [value], c)
    else if s[p] == QUOTE then Token(token + [QUOTE], p + 1)
    else LexString(s, p + 1, token + [s[p]], s[p])
  }

  function LexDate(s: Text, p: nat, token: Text): LexResult
    decreases |s| - p
  {
    if p >= |s| then LexError(E_MISS_QUOTE)
    else if s[p] == 39 then Token(token + [s[p]], p + 1)
    else LexDate(s, p + 1, token + [s[p]])
  }

  // ----- All tokens -----

  predicate SingleChar(c: Byte) {
    c == 44 || c == 93 || c == 43 || c == 45 || c == 42 || c == 47 || c == 40 || c == 41 || c == 37
  }

  /** A word, with an opening parenthesis if it is the name of a function that is called. */
  function LexWord(s: Text, p: nat, timeSep: Byte): LexResult
    requires p < |s|
  {
    var q := SkipWord(s, p + 1, timeSep);
    var word, q' := s[p..q], SkipEmpty(s, q);
    if (Alpha(word[0]) || word[0] == 95) && ByteAt(s, q') == 40 then Token(word + [40], q' + 1)
    else Token(word, q')
  }

  function Lex(s: Text, p0: nat, timeSep: Byte): LexResult {
    var p := SkipEmpty(s, p0);
    if p >= |s| then Token([], p)
    else
      var c, d := s[p], ByteAt(s, p + 1);
      if SingleChar(c) then Token([c], p + 1)
      else if c == 38 || c == 124 || c == 61 then
        if d == c then Token([c, c], p + 2) else LexError(E_PARSE_ERR)
      else if c == 33 || c == 62 || c == 60 then
        if d == 61 then Token([c, 61], p + 2) else Token([c], p + 1)
      else if c == QUOTE then
        if p + 1 >= |s| then LexError(E_MISS_QUOTE) else LexString(s, p + 1, [QUOTE], QUOTE)
      else if c == 39 then LexDate(s, p + 1, [39])
      else if !IdChar(c) && c != 36 then LexError(E_ILLEGAL_CHAR)
      else if c == 36 && Alpha(d) then
        var q := SkipIds(s, p + 1);
        Token(s[p..q], q)
      else LexWord(s, p, timeSep)
  }

  /** The value of a string token: the first and the last character are taken to be quotes. */
  function StringValue(token: Text): Text
    requires |token| >= 2
  {
    token[1..|token| - 1]
  }

  // ----- The tokens found by the original's loops -----

  class Lexer {
    const s: Text
    const timeSep: Byte
    var pos: nat
    var buf: Text

    constructor (s: Text, timeSep: Byte)
      requires NulFree(s)
      ensures this.s == s && this.timeSep == timeSep && pos == 0 && buf == []
    {
      this.s, this.timeSep, pos, buf := s, timeSep, 0, [];
    }

    /** What the call has done is what Lex says. */
    ghost predicate Did(was: nat, ok: bool, error: Error)
      reads this
    {
      match Lex(s, was, timeSep)
      case Token(text, next) => ok && buf == text && pos == next
      case LexError(e) => !ok && error == e
    }

    /** Read a token into the buffer and move behind it. */
    method ParseExprToken() returns (ok: bool, error: Error)
      requires NulFree(s) && pos <= |s|
      modifies this
      ensures Did(old(pos), ok, error) && pos <= |s|
    {
      hide LexString, LexDate, SkipEmpty, SkipIds, SkipWord;
      ok, error := true, E_PARSE_ERR;
      buf := [];
      SkipBlank();
      if ByteAt(s, pos) == 0 {
        return;
      }
      ghost var p := pos;
      var c := s[pos];
      pos := pos + 1;
      buf := [c];
      if SingleChar(c) {
        return;
      }
      if c == 38 || c == 124 || c == 61 {
        if ByteAt(s, pos) == c {
          buf := buf + [c];
          pos := pos + 1;
        } else {
          return false, E_PARSE_ERR;
        }
        return;
      }
      if c == 33 || c == 62 || c == 60 {
        if ByteAt(s, pos) == 61 {
          buf := buf + [61];
          pos := pos + 1;
        }
        return;
      }
      if c == QUOTE {
        ok, error := QuotedString();
        return;
      }
      if c == 39 {
        ok, error := QuotedDate();
        return;
      }
      if !IdChar(c) && c != 36 {
        return false, E_ILLEGAL_CHAR;
      }
      if c == 36 && Alpha(ByteAt(s, pos)) {
        IdChars(p);
        return;
      }
      WordChars(p);
      SkipBlank();
      if (Alpha(buf[0]) || buf[0] == 95) && ByteAt(s, pos) == 40 {
        buf := buf + [40];
        pos := pos + 1;
      }
    }

    method SkipBlank()
      requires NulFree(s) && pos <= |s|
      modifies this`pos
      ensures pos == SkipEmpty(s, old(pos)) <= |s|
    {
      while ByteAt(s, pos) != 0 && IsEmpty(ByteAt(s, pos))
        invariant pos <= |s| && SkipEmpty(s, pos) == SkipEmpty(s, old(pos))
        decreases |s| - pos
      {
        pos := pos + 1;
      }
    }

    method IdChars(ghost p: nat)
      requires NulFree(s) && p < pos <= |s| && buf == s[p..pos]
      modifies this
      ensures pos == SkipIds(s, old(pos)) <= |s| && buf == s[p..pos]
    {
      while IdChar(ByteAt(s, pos))
        invariant p < pos <= |s| && buf == s[p..pos] && SkipIds(s, pos) == SkipIds(s, old(pos))
        decreases |s| - pos
      {
        buf := buf + [s[pos]];
        pos := pos + 1;
      }
    }

    method WordChars(ghost p: nat)
      requires NulFree(s) && p < pos <= |s| && buf == s[p..pos]
      modifies this
      ensures pos == SkipWord(s, old(pos), timeSep) <= |s| && buf == s[p..pos]
    {
      while WordChar(ByteAt(s, pos), timeSep)
        invariant p < pos <= |s| && buf == s[p..pos] && SkipWord(s, pos, timeSep) == SkipWord(s, old(pos), timeSep)
        decreases |s| - pos
      {
        buf := buf + [s[pos]];
        pos := pos + 1;
      }
    }

    /** Behind the opening quote. */
    method QuotedString() returns (ok: bool, error: Error)
      requires NulFree(s) && 0 < pos <= |s| && buf == [QUOTE]
      modifies this
      ensures pos <= |s|
      ensures var r := if old(pos) >= |s| then LexError(E_MISS_QUOTE) else LexString(s, old(pos), [QUOTE], QUOTE);
              (r.Token? ==> ok && buf == r.text && pos == r.next) && (r.LexError? ==> !ok && error == r.error)
    {
      ok, error := true, E_MISS_QUOTE;
      if ByteAt(s, pos) == 0 {
        return false, E_MISS_QUOTE;
      }
      var c := QUOTE;
      while ByteAt(s, pos) != 0
        invariant pos <= |s| && ok && LexString(s, pos, buf, c) == LexString(s, old(pos), [QUOTE], QUOTE)
        decreases |s| - pos
      {
        if s[pos] == BACKSLASH {
          pos := pos + 1;
          if ByteAt(s, pos) == 0 {
            return false, E_MISS_QUOTE;
          }
          var e := EscapeAt(s, pos);
          EscapeInside(s, pos);
          if e == BadEscape {
            return false, E_NO_MEM;
          }
          buf, pos := buf + [e.value], e.next;
        } else {
          c := s[pos];
          pos := pos + 1;
          buf := buf + [c];
          if c == QUOTE {
            return true, error;
          }
        }
      }
      if c != QUOTE {
        return false, E_MISS_QUOTE;
      }
    }

    method QuotedDate() returns (ok: bool, error: Error)
      requires NulFree(s) && 0 < pos <= |s| && buf == [39]
      modifies this
      ensures pos <= |s|
      ensures var r := LexDate(s, old(pos), [39]);
              (r.Token? ==> ok && buf == r.text && pos == r.next) && (r.LexError? ==> !ok && error == r.error)
    {
      while ByteAt(s, pos) != 0
        invariant pos <= |s| && LexDate(s, pos, buf) == LexDate(s, old(pos), [39])
        decreases |s| - pos
      {
        var c := s[pos];
        pos := pos + 1;
        buf := buf + [c];
        if c == 39 {
          return true, E_MISS_QUOTE;
        }
      }
      return false, E_MISS_QUOTE;
    }
  }

  lemma EscapeInside(s: Text, p: nat)
    requires p < |s|
    ensures var e := EscapeAt(s, p); e.Escape? ==> p < e.next <= |s|
  {
  }

  // ----- Strings that are not closed -----

  /** From `p` to the end of the text there is nothing but well-formed escapes. */
  predicate OnlyEscapes(s: Text, p: nat)
    decreases |s| - p
  {
    p >= |s| || (s[p] == BACKSLASH && p + 1 < |s| && EscapeAt(s, p + 1).Escape? &&
        OnlyEscapes(s, EscapeAt(s, p + 1).next))
  }

  /** Whether the string token that goes on at `p` is closed by a quote. */
  predicate Closed(s: Text, p: nat)
    decreases |s| - p
  {
    p < |s| &&
    if s[p] == BACKSLASH then p + 1 < |s| && EscapeAt(s, p + 1).Escape? && Closed(s, EscapeAt(s, p + 1).next)
    else s[p] == QUOTE || Closed(s, p + 1)
  }

  /** A string token is accepted exactly if it is closed by a quote, or is all escapes to the end. */
  lemma {:induction false} StringAccepted(s: Text, p: nat, token: Text, c: Byte)
    requires p <= |s|
    ensures LexString(s, p, token, c).Token? <==> Closed(s, p) || (OnlyEscapes(s, p) && c == QUOTE)
    decreases |s| - p
  {
    if p < |s| {
      if s[p] == BACKSLASH {
        if p + 1 < |s| && EscapeAt(s, p + 1).Escape? {
          EscapeInside(s, p + 1);
          StringAccepted(s, EscapeAt(s, p + 1).next, token + [EscapeAt(s, p + 1).value], c);
        }
      } else if s[p] != QUOTE {
        StringAccepted(s, p + 1, token + [s[p]], s[p]);
        NotBoth(s, p);
      }
    }
  }

  lemma NotBoth(s: Text, p: nat)
    requires p < |s| && s[p] != BACKSLASH
    ensures !OnlyEscapes(s, p)
  {
  }

  /** A quote and an escaped n, and then the text ends: this is taken as a string, and its value is empty. */
  lemma UnclosedAccepted(timeSep: Byte)
    ensures var s := [QUOTE, BACKSLASH, 110];
            !Closed(s, 1) && Lex(s, 0, timeSep) == Token([QUOTE, 10], 3) && StringValue([QUOTE, 10]) == []
  {
    var s := [QUOTE, BACKSLASH, 110];
    assert EscapeAt(s, 2) == Escape(10, 3);
    assert LexString(s, 3, [QUOTE] + [10], QUOTE) == Token([QUOTE] + [10], 3);
  }
}
