/**
 The values of JSON (RFC 8259), how they are written, and when a list of values of
 the parser (src/json.c) represents one.
 */
module JsonValues {
  import opened Bytes
  import opened Decimals
  import opened Json
  import opened JsonSecondPass
  import opened JsonText
  import opened JsonNames

  /** A value, with the white space that is written within it; strings stand here as they are written. */
  datatype Value =
    | NullValue
    | Truth(truth: bool)
    | Number(number: Numeral)
    | Quoted(raw: Text)
    | List(inside: Text, items: seq<Item>)
    | Record(inside: Text, members: seq<Member>)

  datatype Item = Item(before: Text, value: Value, after: Text)

  datatype Member = Member(before: Text, name: Text, gap: Text, item: Item)

  /** A number; the fraction and the power are empty if there is none. */
  datatype Numeral = Numeral(negative: bool, whole: nat, fraction: Text, mark: Text, power: Text)

  // ----- Writing -----

  predicate Blank(w: Text) {
    forall i | 0 <= i < |w| :: w[i] == 9 || w[i] == 10 || w[i] == 13 || w[i] == 32
  }

  predicate OnlyDigits(t: Text) {
    forall i | 0 <= i < |t| :: Digit(t[i])
  }

  /** e or E, and perhaps a sign. */
  predicate PowerMark(t: Text) {
    1 <= |t| <= 2 && (t[0] == 101 || t[0] == 69) && (|t| == 2 ==> t[1] == 43 || t[1] == 45)
  }

  function WrittenNumber(n: Numeral): Text {
    (if n.negative then [45] else []) + Digits(n.whole)
    + (if n.fraction == [] then [] else [46] + n.fraction)
    + (if n.power == [] then [] else n.mark + n.power)
  }

  function WrittenString(raw: Text): Text {
    [34] + (raw + [34])
  }

  function Written(v: Value): Text {
    match v
    case NullValue => [110, 117, 108, 108]
    case Truth(truth) => if truth then [116, 114, 117, 101] else [102, 97, 108, 115, 101]
    case Number(n) => WrittenNumber(n)
    case Quoted(raw) => WrittenString(raw)
    case List(inside, items) => [91] + ((if items == [] then inside else WrittenItems(items)) + [93])
    case Record(inside, members) => [123] + ((if members == [] then inside else WrittenMembers(members)) + [125])
  }

  function WrittenItem(i: Item): Text {
    i.before + (Written(i.value) + i.after)
  }

  /** With commas between them. */
  function WrittenItems(items: seq<Item>): Text
    requires items != []
  {
    if |items| == 1 then WrittenItem(items[0]) else WrittenItem(items[0]) + ([44] + WrittenItems(items[1..]))
  }

  function WrittenMember(m: Member): Text {
    m.before + (WrittenString(m.name) + (m.gap + ([58] + WrittenItem(m.item))))
  }

  function WrittenMembers(members: seq<Member>): Text
    requires members != []
  {
    if |members| == 1 then WrittenMember(members[0])
    else WrittenMember(members[0]) + ([44] + WrittenMembers(members[1..]))
  }

  // ----- What can be written -----

  /** What is written between quotes has a meaning, to its end. */
  predicate Meaningful(raw: Text) {
    var m := Meant(raw + [34], 0, false);
    m.Meaning? && m.end == |raw|
  }

  /** What the parser makes of it: what it means, but for pairs of surrogates that are misread. */
  function Contents(raw: Text): Text {
    var d := Decode(raw + [34], 0, false);
    if d.Meaning? then d.bytes else []
  }

  predicate ValidNumber(n: Numeral) {
    OnlyDigits(n.fraction) && OnlyDigits(n.power) && (n.power != [] ==> PowerMark(n.mark))
  }

  predicate Valid(v: Value) {
    match v
    case NullValue => true
    case Truth(_) => true
    case Number(n) => ValidNumber(n)
    case Quoted(raw) => Meaningful(raw)
    case List(inside, items) => Blank(inside) && forall k | 0 <= k < |items| :: ValidItem(items[k])
    case Record(inside, members) => Blank(inside) && forall k | 0 <= k < |members| :: ValidMember(members[k])
  }

  predicate ValidItem(i: Item) {
    Blank(i.before) && Blank(i.after) && Valid(i.value)
  }

  predicate ValidMember(m: Member) {
    Blank(m.before) && Blank(m.gap) && Meaningful(m.name) && ValidItem(m.item)
  }

  const COUNTER_MAX := 0xffff_fff7

  /** The counters of the parser, of the bytes of a string and of items and members, do not run over. */
  predicate Fits(v: Value) {
    match v
    case Quoted(raw) => |Contents(raw)| <= COUNTER_MAX
    case List(_, items) => |items| <= COUNTER_MAX && forall k | 0 <= k < |items| :: Fits(items[k].value)
    case Record(_, members) =>
      |members| <= COUNTER_MAX
      && forall k | 0 <= k < |members| :: |Contents(members[k].name)| <= COUNTER_MAX && Fits(members[k].item.value)
    case _ => true
  }

  /** The parser has no way on from a whole number too large for it to a fraction. */
  predicate Readable(v: Value) {
    match v
    case Number(n) => n.whole <= LONG_MAX || n.fraction == []
    case List(_, items) => forall k | 0 <= k < |items| :: Readable(items[k].value)
    case Record(_, members) => forall k | 0 <= k < |members| :: Readable(members[k].item.value)
    case _ => true
  }

  // ----- Representing -----

  /** An integer, or else a floating point number. */
  predicate IsInteger(n: Numeral) {
    n.fraction == [] && n.power == [] && n.whole <= LONG_MAX
  }

  /** Value `i` of the list is this value: its kind, what it holds, and what each of its slots leads to. */
  ghost predicate Shown(nodes: seq<Node>, i: int, v: Value)
    decreases v
  {
    0 <= i < |nodes| &&
    var n := nodes[i];
    match v
    case NullValue => n.kind == Kind.Null
    case Truth(truth) => n.kind == Kind.Boolean && n.boolean == truth
    case Number(m) =>
      if IsInteger(m) then n.kind == Integer && n.integer == (if m.negative then 0 - m.whole else m.whole)
      else n.kind == Double
    case Quoted(raw) => IsText(n, Contents(raw))
    case List(_, items) =>
      && n.kind == Kind.Array && n.length == |n.slots| == |items|
      && forall k | 0 <= k < |items| :: Shown(nodes, ValueIn(n, k), items[k].value)
    case Record(_, members) =>
      && n.kind == Kind.Object && n.length == |n.slots| == |members|
      && forall k | 0 <= k < |members| ::
           NameIs(n, k, Contents(members[k].name)) && Shown(nodes, ValueIn(n, k), members[k].item.value)
  }

  function ValueIn(n: Node, k: nat): int {
    if k < |n.slots| then n.slots[k].value else NIL
  }

  /** A string is represented as it is meant exactly if no pair of surrogates in it is misread. */
  lemma ContentsMeant(raw: Text)
    requires Meaningful(raw)
    ensures Contents(raw) == Meant(raw + [34], 0, false).bytes <==> PairsKept(raw + [34], 0, false)
  {
    hide Meant, PairsKept, Decode;
    ReadAsMeant(raw + [34], 0, false);
  }
}
