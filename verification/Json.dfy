/**
 The two-pass JSON parser (src/json.c), as called by json_parse: no comments, no
 memory limit.

 The same loop runs twice over the text.  The first pass builds the list of
 values and counts; the second allocates what was counted and fills it in.  A
 pointer to a value is its place in the list, or NIL.  Memory cells are empty
 until they are written, and a pass that would touch a cell it does not have, or
 would run on for ever, is Broken.
 */
module Json {
  import opened Bytes

  const UINT_MAX := 0xffff_ffff
  const LONG_MAX := 0x7fff_ffff_ffff_ffff
  const NIL := -1

  datatype Kind = Object | Array | Str | Boolean | Null | Integer | Double

  datatype Cell<T> = Empty | Full(v: T)

  /** A member of an object (its name is a stretch of the key area) or an item of an array. */
  datatype Slot = Slot(nameAt: int, nameLength: int, value: int)

  datatype Node = Node(
    kind: Kind, parent: int,
    length: nat,                  // of a string; or the number of items or members
    keyBytes: nat,                // room for the names of an object, each with a NUL
    integer: int, boolean: bool,
    buffer: seq<Cell<Byte>>,      // of a string; or the key area of an object
    objectMem: nat,               // how much of the key area is used
    slots: seq<Slot>)

  datatype Flags = Flags(needComma: bool, seekValue: bool, escaped: bool, inString: bool, needColon: bool, done: bool)

  datatype Num = Num(digits: int, negative: bool, zero: bool, e: bool, eGotSign: bool)

  datatype State = State(ptr: int, flags: Flags, num: Num, stringLength: nat,
                         top: int, root: int, alloc: int, nodes: seq<Node>)

  datatype Outcome = More(s: State) | Finished(s: State) | Failed | Broken

  // ----- Characters -----

  predicate White(b: Byte) {
    b == 10 || b == 32 || b == 9 || b == 13
  }

  /** What the second pass takes to belong to a number. */
  predicate NumChar(b: Byte) {
    Digit(b) || b == 43 || b == 45 || b == 101 || b == 69 || b == 46
  }

  function Hex4(json: Text, p: int): (r: int)
    ensures -1 <= r < 0x10000
  {
    var a, b, c, d := Hex(ByteAt(json, p)), Hex(ByteAt(json, p + 1)), Hex(ByteAt(json, p + 2)),
        Hex(ByteAt(json, p + 3));
    if a == 255 || b == 255 || c == 255 || d == 255 then -1 else (a * 16 + b) * 256 + c * 16 + d
  }

  /** A code point as bytes. */
  function Utf8(u: int): seq<Byte>
    requires 0 <= u < 0x20_0000
  {
    if u <= 0x7f then [u]
    else if u <= 0x7ff then [192 + u / 64, 128 + u % 64]
    else if u <= 0xffff then [224 + u / 4096, 128 + u / 64 % 64, 128 + u % 64]
    else [240 + u / 262144, 128 + u / 4096 % 64, 128 + u / 64 % 64, 128 + u % 64]
  }

  /** Two surrogates, put together with OR. */
  function Surrogates(u: int, u2: int): (r: int)
    requires 0 <= u && 0 <= u2
    ensures 0 <= r < 0x20_0000
  {
    var x := u % 1024 * 1024 + u2 % 1024;
    if x / 0x1_0000 % 2 == 1 then x else x + 0x1_0000
  }

  datatype Unicode = Decoded(ptr: int, bytes: seq<Byte>) | Invalid

  /** The escape whose `u` is at `p`; `ptr` is its last character. */
  function UnicodeEscape(json: Text, p: int): Unicode {
    if |json| - p <= 4 then Invalid
    else
      var u := Hex4(json, p + 1);
      if u == -1 then Invalid
      else if u / 2048 == 27 then
        if |json| - (p + 4) <= 6 || ByteAt(json, p + 5) != 92 || ByteAt(json, p + 6) != 117 then Invalid
        else
          var u2 := Hex4(json, p + 7);
          if u2 == -1 then Invalid else Decoded(p + 10, Utf8(Surrogates(u, u2)))
      else Decoded(p + 4, Utf8(u))
  }

  /** End of the characters that look like a number. */
  function SkipNumber(json: Text, p: int): int
    requires 0 <= p <= |json|
    decreases |json| - p
  {
    if NumChar(ByteAt(json, p)) then SkipNumber(json, p + 1) else p
  }

  // ----- The steps of both passes -----

  function On(s: State): State {
    s.(ptr := s.ptr + 1)
  }

  predicate HasTop(s: State) {
    0 <= s.top < |s.nodes|
  }

  function Top(s: State): Node
    requires HasTop(s)
  {
    s.nodes[s.top]
  }

  function WithTop(s: State, n: Node): State
    requires HasTop(s)
  {
    s.(nodes := s.nodes[s.top := n])
  }

  function Cells<T>(n: nat): seq<Cell<T>> {
    seq(n, _ => Empty)
  }

  function Slots(n: nat): seq<Slot> {
    seq(n, _ => Slot(NIL, NIL, NIL))
  }

  const NEW_NODE := Node(Null, NIL, 0, 0, 0, false, [], 0, [])

  /** Allocation of what the first pass counted. */
  function Allocated(n: Node): Node {
    match n.kind
    case Array => if n.length == 0 then n else n.(slots := Slots(n.length), length := 0)
    case Object =>
      if n.length == 0 then n
      else n.(slots := Slots(n.length), buffer := Cells(n.keyBytes), objectMem := 0, length := 0)
    case Str => n.(buffer := Cells(n.length + 1), length := 0)
    case _ => n
  }

  /** new_value: the next value of the list, made by the first pass and taken by the second. */
  function NewValue(first: bool, s: State, kind: Kind): Outcome {
    if first then
      var i := |s.nodes|;
      More(s.(nodes := s.nodes + [NEW_NODE.(kind := kind, parent := s.top)],
              root := if s.root == NIL then i else s.root, top := i, alloc := i))
    else if 0 <= s.alloc < |s.nodes| then
      More(s.(nodes := s.nodes[s.alloc := Allocated(s.nodes[s.alloc])],
              root := if s.root == NIL then s.alloc else s.root, top := s.alloc,
              alloc := if s.alloc + 1 < |s.nodes| then s.alloc + 1 else NIL))
    else Broken
  }

  /** Where the string being read is written to. */
  function StringBase(n: Node): nat {
    if n.kind == Object then n.objectMem else 0
  }

  /** string_add. */
  function Add(first: bool, s: State, bytes: seq<Byte>): Outcome
    decreases |bytes|
  {
    if bytes == [] then More(s)
    else if first then Add(first, s.(stringLength := s.stringLength + 1), bytes[1..])
    else
      match Write(s, bytes[0])
      case More(s') => Add(first, s'.(stringLength := s'.stringLength + 1), bytes[1..])
      case _ => Broken
  }

  function Write(s: State, b: Byte): Outcome {
    if !HasTop(s) then Broken
    else
      var n := Top(s);
      var at := StringBase(n) + s.stringLength;
      if at < |n.buffer| then More(WithTop(s, n.(buffer := n.buffer[at := Full(b)]))) else Broken
  }

  function Advanced(o: Outcome): Outcome {
    match o
    case More(s) => More(On(s))
    case _ => o
  }

  /** What a character behind a backslash stands for. */
  function Unescaped(b: Byte): Byte {
    if b == 98 then 8 else if b == 102 then 12 else if b == 110 then 10 else if b == 114 then 13 
    else if b == 116 then 9 else b
  }

  function StringStep(json: Text, first: bool, s: State, b: Byte): Outcome {
    if b == 0 then Failed
    else if s.stringLength > UINT_MAX - 8 then Failed
    else if s.flags.escaped then
      var s' := s.(flags := s.flags.(escaped := false));
      if b == 117 then
        match UnicodeEscape(json, s.ptr)
        case Invalid => Failed
        case Decoded(ptr, bytes) => Advanced(Add(first, s'.(ptr := ptr), bytes))
      else Advanced(Add(first, s', [Unescaped(b)]))
    else if b == 92 then More(On(s.(flags := s.flags.(escaped := true))))
    else if b == 34 then EndString(first, s)
    else Advanced(Add(first, s, [b]))
  }

  function EndString(first: bool, s0: State): Outcome {
    var o := if first then More(s0) else Write(s0, 0);
    if o.Broken? || !o.More? || !HasTop(o.s) then Broken
    else
      var s := o.s.(flags := o.s.flags.(inString := false));
      var n := Top(s);
      if n.kind == Str then
        Next(first, WithTop(s, n.(length := s.stringLength)), false)
      else if n.kind == Object then
        var s' := s.(flags := s.flags.(seekValue := true, needColon := true));
        if first then
          More(On(WithTop(s', n.(keyBytes := n.keyBytes + s.stringLength + 1))))
        else if n.length < |n.slots| then
          More(On(WithTop(s', n.(slots := n.slots[n.length :=
              n.slots[n.length].(nameAt := n.objectMem, nameLength := s.stringLength)],
                                 objectMem := n.objectMem + s.stringLength + 1))))
        else Broken
      else Broken
  }

  /** A value is complete: it becomes an item of the value around it. */
  function Next(first: bool, s: State, reproc: bool): Outcome {
    if !HasTop(s) then Broken
    else
      var ptr := if reproc then s.ptr else s.ptr + 1;
      var s := s.(ptr := ptr, flags := s.flags.(needComma := true));
      var p := Top(s).parent;
      if p == NIL then More(s.(flags := s.flags.(done := true)))
      else if !(0 <= p < |s.nodes|) then Broken
      else
        var n := s.nodes[p];
        if !first && n.length >= |n.slots| then Broken
        else
          var n' := if first then n else n.(slots := n.slots[n.length := n.slots[n.length].(value := s.top)]);
          if n.length + 1 > UINT_MAX - 8 then Failed
          else
            More(s.(flags := s.flags.(seekValue := s.flags.seekValue || n.kind == Array),
                    nodes := s.nodes[p := n'.(length := n.length + 1)], top := p))
  }

  function SeekStep(json: Text, first: bool, s: State, b: Byte): Outcome {
    if White(b) then More(On(s))
    else if b == 93 then
      if HasTop(s) && Top(s).kind == Array then
        Next(first, s.(flags := s.flags.(needComma := false, seekValue := false)), false)
      else Failed
    else if s.flags.needComma then
      if b == 44 then More(On(s.(flags := s.flags.(needComma := false)))) else Failed
    else if s.flags.needColon then
      if b == 58 then More(On(s.(flags := s.flags.(needColon := false)))) else Failed
    else ValueStep(json, first, s.(flags := s.flags.(seekValue := false)), b)
  }

  function ValueStep(json: Text, first: bool, s: State, b: Byte): Outcome {
    if b == 123 then Advanced(NewValue(first, s, Object))
    else if b == 91 then
      Advanced(NewValue(first, s.(flags := s.flags.(seekValue := true)), Array))
    else if b == 34 then
      Advanced(NewValue(first, s.(flags := s.flags.(inString := true), stringLength := 0), Str))
    else if b == 116 then
      if Reads(json, s.ptr, [114, 117, 101]) then Literal(first, s, 3, Boolean, true) else Failed
    else if b == 102 then
      if Reads(json, s.ptr, [97, 108, 115, 101]) then Literal(first, s, 4, Boolean, false) else Failed
    else if b == 110 then
      if Reads(json, s.ptr, [117, 108, 108]) then Literal(first, s, 3, Null, false) else Failed
    else if Digit(b) || b == 45 then
      match NewValue(first, s, Integer)
      case More(s') =>
        if !first then
          if 0 <= s.ptr <= |json| then Next(first, s'.(ptr := SkipNumber(json, s.ptr)), true) else Broken
        else
          var s'' := s'.(num := Num(0, b == 45, false, false, false));
          if b != 45 then More(s'') else More(On(s''))
      case o => o
    else Failed
  }

  predicate Reads(json: Text, p: int, word: seq<Byte>) {
    0 <= p && p + |word| < |json| && json[p + 1..p + 1 + |word|] == word
  }

  function Literal(first: bool, s: State, n: nat, kind: Kind, value: bool): Outcome {
    match NewValue(first, s, kind)
    case More(s') =>
      if !HasTop(s') then Broken
      else Next(first, WithTop(s', Top(s').(boolean := value)).(ptr := s.ptr + n), false)
    case o => o
  }

  function ObjectStep(first: bool, s: State, b: Byte): Outcome {
    if White(b) then More(On(s))
    else if b == 34 then
      if s.flags.needComma then Failed
      else More(On(s.(flags := s.flags.(inString := true), stringLength := 0)))
    else if b == 125 then Next(first, s.(flags := s.flags.(needComma := false)), false)
    else if b == 44 && s.flags.needComma then More(On(s.(flags := s.flags.(needComma := false))))
    else Failed
  }

  predicate WouldOverflow(value: int, b: Byte)
    requires Digit(b)
  {
    (LONG_MAX - (b - 48)) / 10 < value
  }

  datatype NumberAct = Go(n: Node, num: Num, reproc: bool) | End | Bad

  /** What one character does to a number, in the first pass. */
  function NumberChar(n: Node, num: Num, b: Byte): NumberAct {
    if Digit(b) then
      if num.e then Go(n, num.(digits := num.digits + 1, eGotSign := true), false)
      else if n.kind == Integer then
        if num.zero then Bad
        else
          var num' := num.(zero := num.digits == 0 && b == 48);
          if WouldOverflow(n.integer, b) then Go(n.(kind := Double), num', true)
          else Go(n.(integer := n.integer * 10 + (b - 48)), num'.(digits := num.digits + 1), false)
      else Go(n, num.(digits := num.digits + 1), false)
    else if (b == 43 || b == 45) && num.e && !num.eGotSign then Go(n, num.(eGotSign := true), false)
    else if b == 46 && n.kind == Integer then
      if num.digits == 0 then Bad else Go(n.(kind := Double), num.(digits := 0), false)
    else if !num.e && n.kind == Double && num.digits == 0 then Bad
    else if !num.e && (b == 101 || b == 69) then Go(n.(kind := Double), num.(e := true, digits := 0, zero := false),
        false)
    else if num.e && num.digits == 0 then Bad
    else End
  }

  /** The sign is applied last. */
  function Signed(n: Node, num: Num): Node {
    if num.negative && n.kind == Integer then n.(integer := -n.integer) else n
  }

  function NumberStep(s: State, b: Byte): Outcome
    requires HasTop(s)
  {
    match NumberChar(Top(s), s.num, b)
    case Go(n, num, reproc) =>
      var s' := WithTop(s, n).(num := num);
      More(if reproc then s' else On(s'))
    case End => Next(true, WithTop(s, Signed(Top(s), s.num)), true)
    case Bad => Failed
  }

  /** One turn of the loop. */
  function Step(json: Text, first: bool, s: State): Outcome {
    var b := ByteAt(json, s.ptr);
    if s.flags.inString then StringStep(json, first, s, b)
    else if s.flags.done then
      if b == 0 then Finished(s) else if White(b) then More(On(s)) else Failed
    else if s.flags.seekValue then SeekStep(json, first, s, b)
    else if !HasTop(s) then Broken
    else
      match Top(s).kind
      case Object => ObjectStep(first, s, b)
      case Integer => NumberStep(s, b)
      case Double => NumberStep(s, b)
      case _ => Broken
  }

  // ----- Whole passes -----

  /** A character left to read is worth four; what can be done without reading one, up to three. */
  function Measure(json: Text, s: State): int {
    4 * (|json| - s.ptr) +
    (if s.flags.inString || s.flags.done then 0
     else if s.flags.seekValue then (if s.flags.needComma then 0 else 3)
     else if !HasTop(s) then 0
     else if Top(s).kind == Integer then 2
     else if Top(s).kind == Double then 1
     else 0)
  }

  datatype Result = Accepted(s: State) | Rejected | Crashed

  function Run(json: Text, first: bool, s: State): Result
    decreases Measure(json, s)
  {
    match Step(json, first, s)
    case Finished(s') => Accepted(s')
    case Failed => Rejected
    case Broken => Crashed
    case More(s') => if 0 <= Measure(json, s') < Measure(json, s) then Run(json, first, s') else Crashed
  }

  function Start(alloc: int, nodes: seq<Node>): State {
    State(0, Flags(false, true, false, false, false, false), Num(0, false, false, false, false), 0, NIL, NIL, alloc,
        nodes)
  }
}
