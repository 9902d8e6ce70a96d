// The printers into a growing buffer.
module JsonPrint {
  import opened Bytes
  import opened Json
  import opened JsonBuffer
  import opened Sequences

  // ---- sizes

  function TenTo(k: nat): nat {
    if k == 0 then 1 else 10 * TenTo(k - 1)
  }

  lemma {:induction false} DigitsFit(n: nat, k: nat)
    requires k > 0 && n < TenTo(k)
    ensures |Digits(n)| <= k
  {
    if n >= 10 {
      DigitsFit(n / 10, k - 1);
    }
  }

  lemma NumberFits(d: real)
    requires IsInt(d)
    ensures |PrintNumber(d)| <= 11
  {
    assert TenTo(2) == 100 && TenTo(4) == 10000 && TenTo(6) == 1000000 && TenTo(8) == 100000000;
    assert TenTo(10) == 10000000000;
    DigitsFit(if d.Floor < 0 then -d.Floor else d.Floor, 10);
  }

  // ---- a print holds no NUL

  lemma {:induction false} EscapesAreText(s: seq<byte>)
    requires IsText(s)
    ensures IsText(Escapes(s))
  {
    if s != [] {
      assert s[0] in s;
      EscapesAreText(s[1..]);
    }
  }

  lemma {:induction false} PrintIsText(v: Json, depth: nat, fmt: bool)
    requires Printable(v)
    ensures IsText(Print(v, depth, fmt))
    decreases v, 2
  {
    match v
    case String(s) => EscapesAreText(s);
    case Array(items) => ItemsAreText(items, depth + 1, fmt);
    case Object(members) => MembersAreText(members, depth + 1, fmt);
    case _ =>
  }

  lemma {:induction false} ItemsAreText(items: seq<Json>, depth: nat, fmt: bool)
    requires PrintableItems(items)
    ensures IsText(PrintItems(items, depth, fmt))
    decreases items, 1
  {
    if items != [] {
      PrintIsText(items[0], depth, fmt);
      ItemsAreText(items[1..], depth, fmt);
    }
  }

  lemma {:induction false} MembersAreText(members: seq<Member>, depth: nat, fmt: bool)
    requires PrintableMembers(members)
    ensures IsText(PrintMembers(members, depth, fmt))
    decreases members, 1
  {
    if members != [] {
      EscapesAreText(members[0].name);
      PrintIsText(members[0].value, depth, fmt);
      MembersAreText(members[1..], depth, fmt);
    }
  }

  // ---- strings

  predicate Special(c: byte) {
    0 < c < 32 || c == QUOTE || c == BACKSLASH
  }

  // does any byte need an escape?
  method NeedsEscape(str: seq<byte>) returns (flag: bool)
    ensures flag <==> exists i :: 0 <= i < |str| && Special(str[i])
  {
    flag := false;
    for i := 0 to |str|
      invariant flag <==> exists k :: 0 <= k < i && Special(str[k])
    {
      flag := flag || Special(str[i]);
    }
  }

  lemma {:induction false} PlainEscapes(str: seq<byte>)
    requires IsText(str) && forall i :: 0 <= i < |str| ==> !Special(str[i])
    ensures Escapes(str) == str
  {
    if str != [] {
      assert str[0] in str && !Special(str[0]);
      assert Escape(str[0]) == [str[0]];
      forall i | 0 <= i < |str[1..]| ensures !Special(str[1..][i]) {
        assert str[1..][i] == str[i + 1];
      }
      PlainEscapes(str[1..]);
      assert str == [str[0]] + str[1..];
    }
  }

  lemma EscapesStep(str: seq<byte>, i: nat)
    requires i < |str|
    ensures Escapes(str[i..]) == Escape(str[i]) + Escapes(str[i + 1..])
  {
    assert str[i..][1..] == str[i + 1..];
  }

  // how much the escaped text takes
  method EscapedLength(str: seq<byte>) returns (len: nat)
    requires IsText(str)
    ensures len == |Escapes(str)|
  {
    len := 0;
    var ptr := 0;
    while ptr < |str|
      invariant ptr <= |str| && len + |Escapes(str[ptr..])| == |Escapes(str)|
    {
      EscapesStep(str, ptr);
      var token := str[ptr];
      len := len + 1;
      if token in [QUOTE, BACKSLASH, 8, 12, NEWLINE, RETURN, TAB] {
        len := len + 1;
      } else if token < 32 {
        len := len + 5;
      }
      ptr := ptr + 1;
    }
  }

  method EscapeAll(str: seq<byte>) returns (out: seq<byte>)
    requires IsText(str)
    ensures out == Escapes(str)
  {
    out := [];
    var ptr := 0;
    while ptr < |str|
      invariant ptr <= |str| && out + Escapes(str[ptr..]) == Escapes(str)
    {
      EscapesStep(str, ptr);
      Assoc(out, Escape(str[ptr]), Escapes(str[ptr + 1..]));
      var token := str[ptr];
      ptr := ptr + 1;
      if token > 31 && token != QUOTE && token != BACKSLASH {
        out := out + [token];
      } else if token == BACKSLASH {
        out := out + [BACKSLASH, BACKSLASH];
      } else if token == QUOTE {
        out := out + [BACKSLASH, QUOTE];
      } else if token == 8 {
        out := out + [BACKSLASH, 98];
      } else if token == 12 {
        out := out + [BACKSLASH, 102];
      } else if token == NEWLINE {
        out := out + [BACKSLASH, 110];
      } else if token == RETURN {
        out := out + [BACKSLASH, 114];
      } else if token == TAB {
        out := out + [BACKSLASH, 116];
      } else {
        out := out + [BACKSLASH, LETTER_U, ZERO, ZERO, HexDigit(token / 16), HexDigit(token % 16)];
      }
    }
    assert out + Escapes([]) == out;
  }

  // the space print_string_ptr asks for and the text it stores there
  method QuotedText(str: seq<byte>) returns (needed: nat, text: seq<byte>)
    requires IsText(str)
    ensures text == PrintString(str) && needed == |text| + 1
  {
    var flag := NeedsEscape(str);
    if !flag {
      PlainEscapes(str);
      return |str| + 3, [QUOTE] + str + [QUOTE];
    }
    var len := EscapedLength(str);
    var out := EscapeAll(str);
    needed, text := len + 3, [QUOTE] + out + [QUOTE];
  }

  // ---- into a growing buffer

  method NumberInto(d: real, p: PrintBuffer) returns (out: nat)
    requires IsInt(d) && p.Valid() && p.offset + 21 <= LIMIT
    modifies p, p.buffer
    ensures p.Valid() && (p.buffer == old(p.buffer) || fresh(p.buffer))
    ensures p.Shows(old(p.Done()) + PrintNumber(d)) && p.offset == old(p.offset) == out
  {
    NumberFits(d);
    if d == 0.0 {
      p.Write(2, [ZERO]);
    } else {
      p.Write(21, PrintNumber(d));
    }
    out := p.offset;
  }

  method StringInto(str: seq<byte>, p: PrintBuffer) returns (out: nat)
    requires IsText(str) && p.Valid() && p.offset + |PrintString(str)| + 1 <= LIMIT
    modifies p, p.buffer
    ensures p.Valid() && (p.buffer == old(p.buffer) || fresh(p.buffer))
    ensures p.Shows(old(p.Done()) + PrintString(str)) && p.offset == old(p.offset) == out
  {
    var needed, text := QuotedText(str);
    p.Write(needed, text);
    out := p.offset;
  }

  // where the text starts, as the printer tells it: an object loses it to a loop counter
  function Reported(v: Json, depth: nat, fmt: bool, offset: nat): nat {
    if fmt && v.Object? && v.members != [] then depth else offset
  }

  method ValueInto(v: Json, depth: nat, fmt: bool, p: PrintBuffer) returns (out: nat)
    requires Printable(v) && p.Valid() && IsText(p.Done()) && p.offset + |Print(v, depth, fmt)| + 21 <= LIMIT
    modifies p, p.buffer
    ensures p.Valid() && (p.buffer == old(p.buffer) || fresh(p.buffer))
    ensures p.Shows(old(p.Done()) + Print(v, depth, fmt)) && old(p.offset) <= p.offset
    ensures out == Reported(v, depth, fmt, old(p.offset))
    decreases v, 1
  {
    out := p.offset;
    match v {
      case Null => p.Write(5, NULL_TEXT);
      case False => p.Write(6, FALSE_TEXT);
      case True => p.Write(5, TRUE_TEXT);
      case Number(d) => out := NumberInto(d, p);
      case String(s) => out := StringInto(s, p);
      case Array(items) => out := ArrayInto(items, depth, fmt, p);
      case Object(members) => out := ObjectInto(members, depth, fmt, p);
    }
  }

  // print_value and update
  method ValueOnto(v: Json, depth: nat, fmt: bool, p: PrintBuffer)
    requires Printable(v) && p.Valid() && IsText(p.Done()) && p.offset + |Print(v, depth, fmt)| + 21 <= LIMIT
    modifies p, p.buffer
    ensures p.Valid() && (p.buffer == old(p.buffer) || fresh(p.buffer))
    ensures p.Done() == old(p.Done()) + Print(v, depth, fmt) && IsText(p.Done())
    decreases v, 2
  {
    ghost var t := p.Done() + Print(v, depth, fmt);
    PrintIsText(v, depth, fmt);
    var _ := ValueInto(v, depth, fmt, p);
    p.Update(t);
  }

  lemma ItemsStep(items: seq<Json>, i: nat, depth: nat, fmt: bool)
    requires i < |items|
    ensures PrintItems(items[i..], depth, fmt)
         == Print(items[i], depth, fmt) + ItemEnd(i + 1 == |items|, fmt) + PrintItems(items[i + 1..], depth, fmt)
  {
    assert items[i..][1..] == items[i + 1..];
    Assoc(Print(items[i], depth, fmt), ItemEnd(i + 1 == |items|, fmt), PrintItems(items[i + 1..], depth, fmt));
  }

  function ItemEnd(last: bool, fmt: bool): seq<byte> {
    if last then [] else Comma(fmt)
  }

  lemma {:induction false} PrintableAt(items: seq<Json>, i: nat)
    requires PrintableItems(items) && i < |items|
    ensures Printable(items[i])
  {
    if i > 0 {
      PrintableAt(items[1..], i - 1);
    }
  }

  method ItemOnto(v: Json, last: bool, depth: nat, fmt: bool, p: PrintBuffer)
    requires Printable(v) && p.Valid() && IsText(p.Done())
    requires p.offset + |Print(v, depth, fmt) + ItemEnd(last, fmt)| + 21 <= LIMIT
    modifies p, p.buffer
    ensures p.Valid() && (p.buffer == old(p.buffer) || fresh(p.buffer))
    ensures p.Done() == old(p.Done()) + (Print(v, depth, fmt) + ItemEnd(last, fmt)) && IsText(p.Done())
    decreases v, 3
  {
    Assoc(p.Done(), Print(v, depth, fmt), ItemEnd(last, fmt));
    ValueOnto(v, depth, fmt, p);
    if !last {
      p.Add(|Comma(fmt)| + 1, Comma(fmt), true);
    }
  }

  method ItemsOnto(items: seq<Json>, depth: nat, fmt: bool, p: PrintBuffer)
    requires PrintableItems(items) && p.Valid() && IsText(p.Done())
    requires p.offset + |PrintItems(items, depth, fmt)| + 21 <= LIMIT
    modifies p, p.buffer
    ensures p.Valid() && (p.buffer == old(p.buffer) || fresh(p.buffer))
    ensures p.Done() == old(p.Done()) + PrintItems(items, depth, fmt) && IsText(p.Done())
    decreases items, 0
  {
    ghost var body := p.Done() + PrintItems(items, depth, fmt);
    var i := 0;
    assert items[0..] == items;
    while i < |items|
      invariant i <= |items| && p.Valid() && IsText(p.Done()) && (p.buffer == old(p.buffer) || fresh(p.buffer))
      invariant p.Done() + PrintItems(items[i..], depth, fmt) == body
    {
      ghost var item, rest := Print(items[i], depth, fmt) + ItemEnd(i + 1 == |items|, fmt), items[i + 1..];
      PrintableAt(items, i);
      ItemsStep(items, i, depth, fmt);
      Assoc(p.Done(), item, PrintItems(rest, depth, fmt));
      ItemOnto(items[i], i + 1 == |items|, depth, fmt, p);
      i := i + 1;
    }
    assert p.Done() + [] == p.Done();
  }

  method ArrayInto(items: seq<Json>, depth: nat, fmt: bool, p: PrintBuffer) returns (out: nat)
    requires PrintableItems(items) && p.Valid() && IsText(p.Done())
    requires p.offset + |PrintArray(items, depth, fmt)| + 21 <= LIMIT
    modifies p, p.buffer
    ensures p.Valid() && (p.buffer == old(p.buffer) || fresh(p.buffer))
    ensures p.Shows(old(p.Done()) + PrintArray(items, depth, fmt)) && old(p.offset) <= p.offset
    ensures out == old(p.offset)
    decreases items, 1
  {
    out := p.offset;
    ArrayText(p.Done(), items, depth, fmt);
    if |items| == 0 {
      p.Write(3, [LBRACKET, RBRACKET]);
      return;
    }
    p.Add(1, [LBRACKET], false);
    ItemsOnto(items, depth + 1, fmt, p);
    p.Write(2, [RBRACKET]);
  }

  lemma ArrayText(start: seq<byte>, items: seq<Json>, depth: nat, fmt: bool)
    ensures start + [LBRACKET] + PrintItems(items, depth + 1, fmt) + [RBRACKET] == start + PrintArray(items, depth, fmt)
    ensures items == [] ==> PrintArray(items, depth, fmt) == [LBRACKET, RBRACKET]
  {
    var body := PrintItems(items, depth + 1, fmt);
    Assoc(start, [LBRACKET], body);
    Assoc(start, [LBRACKET] + body, [RBRACKET]);
  }

  // one member, up to the comma or line feed behind it
  method MemberOnto(m: Member, last: bool, depth: nat, fmt: bool, p: PrintBuffer)
    requires IsText(m.name) && Printable(m.value) && p.Valid() && IsText(p.Done()) && depth > 0
    requires p.offset + |PrintMember(m, last, depth, fmt)| + 21 <= LIMIT
    modifies p, p.buffer
    ensures p.Valid() && (p.buffer == old(p.buffer) || fresh(p.buffer))
    ensures p.Done() == old(p.Done()) + PrintMember(m, last, depth, fmt) && IsText(p.Done())
    decreases m, 3
  {
    AssocFive(p.Done(), Indent(depth, fmt), PrintString(m.name), Colon(fmt), Print(m.value, depth, fmt),
              MemberEnd(last, fmt));
    NameOnto(m.name, depth, fmt, p);
    ValueOnto(m.value, depth, fmt, p);
    p.Add(|MemberEnd(last, fmt)| + 1, MemberEnd(last, fmt), true);
  }

  method NameOnto(name: seq<byte>, depth: nat, fmt: bool, p: PrintBuffer)
    requires IsText(name) && p.Valid() && IsText(p.Done()) && depth > 0
    requires p.offset + |Indent(depth, fmt)| + |PrintString(name)| + |Colon(fmt)| + 1 <= LIMIT
    modifies p, p.buffer
    ensures p.Valid() && (p.buffer == old(p.buffer) || fresh(p.buffer))
    ensures p.Done() == old(p.Done()) + Indent(depth, fmt) + PrintString(name) + Colon(fmt) && IsText(p.Done())
  {
    if fmt {
      p.Add(depth, Tabs(depth), false);
    }
    ghost var t := p.Done() + PrintString(name);
    EscapesAreText(name);
    var _ := StringInto(name, p);
    p.Update(t);
    p.Add(|Colon(fmt)|, Colon(fmt), false);
  }

  lemma MembersStep(members: seq<Member>, i: nat, depth: nat, fmt: bool)
    requires i < |members|
    ensures PrintMembers(members[i..], depth, fmt)
         == PrintMember(members[i], i + 1 == |members|, depth, fmt) + PrintMembers(members[i + 1..], depth, fmt)
  {
    assert members[i..][1..] == members[i + 1..];
  }

  lemma {:induction false} PrintableMemberAt(members: seq<Member>, i: nat)
    requires PrintableMembers(members) && i < |members|
    ensures IsText(members[i].name) && Printable(members[i].value)
  {
    if i > 0 {
      PrintableMemberAt(members[1..], i - 1);
    }
  }

  method MembersOnto(members: seq<Member>, depth: nat, fmt: bool, p: PrintBuffer)
    requires PrintableMembers(members) && p.Valid() && IsText(p.Done()) && depth > 0
    requires p.offset + |PrintMembers(members, depth, fmt)| + 21 <= LIMIT
    modifies p, p.buffer
    ensures p.Valid() && (p.buffer == old(p.buffer) || fresh(p.buffer))
    ensures p.Done() == old(p.Done()) + PrintMembers(members, depth, fmt) && IsText(p.Done())
    decreases members, 0
  {
    ghost var body := p.Done() + PrintMembers(members, depth, fmt);
    var i := 0;
    assert members[0..] == members;
    while i < |members|
      invariant i <= |members| && p.Valid() && IsText(p.Done()) && (p.buffer == old(p.buffer) || fresh(p.buffer))
      invariant p.Done() + PrintMembers(members[i..], depth, fmt) == body
    {
      ghost var member := PrintMember(members[i], i + 1 == |members|, depth, fmt);
      PrintableMemberAt(members, i);
      MembersStep(members, i, depth, fmt);
      Assoc(p.Done(), member, PrintMembers(members[i + 1..], depth, fmt));
      MemberOnto(members[i], i + 1 == |members|, depth, fmt, p);
      i := i + 1;
    }
    assert p.Done() + [] == p.Done();
  }

  method ObjectInto(members: seq<Member>, depth: nat, fmt: bool, p: PrintBuffer) returns (out: nat)
    requires PrintableMembers(members) && p.Valid() && IsText(p.Done())
    requires p.offset + |PrintObject(members, depth, fmt)| + 21 <= LIMIT
    modifies p, p.buffer
    ensures p.Valid() && (p.buffer == old(p.buffer) || fresh(p.buffer))
    ensures p.Shows(old(p.Done()) + PrintObject(members, depth, fmt)) && old(p.offset) <= p.offset
    ensures out == Reported(Object(members), depth, fmt, old(p.offset))
    decreases members, 1
  {
    out := p.offset;
    ghost var body := PrintMembers(members, depth + 1, fmt);
    AssocFive(p.Done(), [LBRACE], LineEnd(fmt), body, Indent(depth, fmt), [RBRACE]);
    if |members| == 0 {
      p.Write(if fmt then depth + 4 else 3, [LBRACE] + LineEnd(fmt) + [] + Indent(depth, fmt) + [RBRACE]);
      return;
    }
    Assoc(p.Done(), [LBRACE], LineEnd(fmt));
    Assoc(p.Done() + [LBRACE] + LineEnd(fmt) + body, Indent(depth, fmt), [RBRACE]);
    p.Add(if fmt then 3 else 2, [LBRACE] + LineEnd(fmt), true);
    MembersOnto(members, depth + 1, fmt, p);
    p.Write(if fmt then depth + 2 else 2, Indent(depth, fmt) + [RBRACE]);
    if fmt {
      out := depth;
    }
  }

  // the terminated text t in an array of bytes
  ghost predicate IsCString(a: array<byte>, at: nat, t: seq<byte>)
    reads a
  {
    at + |t| < a.Length && a[at..at + |t|] == t && a[at + |t|] == 0
  }

  method PrintBuffered(v: Json, prebuffer: nat, fmt: bool) returns (a: array<byte>, out: nat)
    requires Printable(v) && 0 < prebuffer && |Print(v, 0, fmt)| + 21 <= LIMIT
    ensures IsCString(a, out, Print(v, 0, fmt))
  {
    var p := new PrintBuffer(prebuffer);
    out := ValueInto(v, 0, fmt, p);
    a := p.buffer;
  }
}
