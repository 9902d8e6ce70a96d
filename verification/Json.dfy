// Trees of cJSON items, and the text that stands for them.
module Json {
  import opened Bytes

  // bytes of the JSON text
  const QUOTE: byte := 34
  const BACKSLASH: byte := 92
  const SLASH: byte := 47
  const COMMA: byte := 44
  const COLON: byte := 58
  const MINUS: byte := 45
  const PLUS: byte := 43
  const DOT: byte := 46
  const STAR: byte := 42
  const LBRACKET: byte := 91
  const RBRACKET: byte := 93
  const LBRACE: byte := 123
  const RBRACE: byte := 125
  const TAB: byte := 9
  const NEWLINE: byte := 10
  const RETURN: byte := 13
  const SPACE: byte := 32
  const ZERO: byte := 48
  const LETTER_U: byte := 117
  const NULL_TEXT: seq<byte> := [110, 117, 108, 108]
  const FALSE_TEXT: seq<byte> := [102, 97, 108, 115, 101]
  const TRUE_TEXT: seq<byte> := [116, 114, 117, 101]

  const INT_MIN: int := -0x8000_0000
  const INT_MAX: int := 0x7FFF_FFFF

  // the tree of cJSON items; the children of an item in the order of their next links
  datatype Json =
    | Null
    | False
    | True
    | Number(d: real)
    | String(s: seq<byte>)
    | Array(items: seq<Json>)
    | Object(members: seq<Member>)

  datatype Member = Member(name: seq<byte>, value: Json)

  // a parser's answer: the value and where it stopped, or where it gave up
  datatype Parsed<T> = Fail(at: nat) | Ok(value: T, end: nat)

  // a string in memory ends at its first NUL
  predicate IsText(s: seq<byte>) {
    0 !in s
  }

  // a number the printers render with %d
  predicate IsInt(d: real) {
    d == d.Floor as real && INT_MIN <= d.Floor <= INT_MAX
  }

  // trees of int numbers and strings without NUL
  predicate Printable(v: Json) {
    match v
    case Number(d) => IsInt(d)
    case String(s) => IsText(s)
    case Array(items) => PrintableItems(items)
    case Object(members) => PrintableMembers(members)
    case _ => true
  }

  predicate PrintableItems(items: seq<Json>) {
    items == [] || (Printable(items[0]) && PrintableItems(items[1..]))
  }

  predicate PrintableMembers(members: seq<Member>) {
    members == []
    || (IsText(members[0].name) && Printable(members[0].value) && PrintableMembers(members[1..]))
  }

  // ---- the text of a tree

  function Digits(n: nat): (t: seq<byte>)
    ensures |t| > 0 && forall i :: 0 <= i < |t| ==> 48 <= t[i] <= 57
  {
    if n < 10 then [48 + n] else Digits(n / 10) + [48 + n % 10]
  }

  function PrintNumber(d: real): seq<byte> {
    var n := d.Floor;
    if n < 0 then [MINUS] + Digits(-n) else Digits(n)
  }

  function HexDigit(n: nat): byte
    requires n < 16
  {
    if n < 10 then 48 + n else 87 + n
  }

  // how one byte of a string is written
  function Escape(c: byte): (t: seq<byte>)
    ensures |t| > 0
  {
    if c > 31 && c != QUOTE && c != BACKSLASH then [c]
    else if c == BACKSLASH then [BACKSLASH, BACKSLASH]
    else if c == QUOTE then [BACKSLASH, QUOTE]
    else if c == 8 then [BACKSLASH, 98]
    else if c == 12 then [BACKSLASH, 102]
    else if c == NEWLINE then [BACKSLASH, 110]
    else if c == RETURN then [BACKSLASH, 114]
    else if c == TAB then [BACKSLASH, 116]
    else [BACKSLASH, LETTER_U, ZERO, ZERO, HexDigit(c / 16), HexDigit(c % 16)]
  }

  function Escapes(s: seq<byte>): seq<byte> {
    if s == [] then [] else Escape(s[0]) + Escapes(s[1..])
  }

  function PrintString(s: seq<byte>): seq<byte> {
    [QUOTE] + Escapes(s) + [QUOTE]
  }

  function Tabs(n: nat): (t: seq<byte>)
    ensures |t| == n
  {
    seq(n, i => TAB)
  }

  // ---- what is written between the values

  function Indent(depth: nat, fmt: bool): seq<byte> {
    if fmt then Tabs(depth) else []
  }

  function LineEnd(fmt: bool): seq<byte> {
    if fmt then [NEWLINE] else []
  }

  function Colon(fmt: bool): seq<byte> {
    if fmt then [COLON, TAB] else [COLON]
  }

  function Comma(fmt: bool): seq<byte> {
    if fmt then [COMMA, SPACE] else [COMMA]
  }

  function MemberEnd(last: bool, fmt: bool): seq<byte> {
    (if last then [] else [COMMA]) + LineEnd(fmt)
  }

  // print_value at a depth, formatted or not
  function Print(v: Json, depth: nat, fmt: bool): seq<byte>
    decreases v, 3
  {
    match v
    case Null => NULL_TEXT
    case False => FALSE_TEXT
    case True => TRUE_TEXT
    case Number(d) => PrintNumber(d)
    case String(s) => PrintString(s)
    case Array(items) => PrintArray(items, depth, fmt)
    case Object(members) => PrintObject(members, depth, fmt)
  }

  function PrintArray(items: seq<Json>, depth: nat, fmt: bool): seq<byte>
    decreases items, 2
  {
    [LBRACKET] + PrintItems(items, depth + 1, fmt) + [RBRACKET]
  }

  function PrintObject(members: seq<Member>, depth: nat, fmt: bool): seq<byte>
    decreases members, 2
  {
    [LBRACE] + LineEnd(fmt) + PrintMembers(members, depth + 1, fmt) + Indent(depth, fmt) + [RBRACE]
  }

  function PrintItems(items: seq<Json>, depth: nat, fmt: bool): seq<byte>
    decreases items, 0
  {
    if items == [] then [] else Print(items[0], depth, fmt) + ItemsTail(items[1..], depth, fmt)
  }

  // the items that follow another one
  function ItemsTail(items: seq<Json>, depth: nat, fmt: bool): seq<byte>
    decreases items, 1
  {
    if items == [] then [] else Comma(fmt) + PrintItems(items, depth, fmt)
  }

  function PrintMember(m: Member, last: bool, depth: nat, fmt: bool): seq<byte>
    decreases m, 4
  {
    Indent(depth, fmt) + PrintString(m.name) + Colon(fmt) + Print(m.value, depth, fmt) + MemberEnd(last, fmt)
  }

  function PrintMembers(members: seq<Member>, depth: nat, fmt: bool): seq<byte>
    decreases members, 0
  {
    if members == [] then []
    else PrintMember(members[0], members[1..] == [], depth, fmt) + PrintMembers(members[1..], depth, fmt)
  }
}
