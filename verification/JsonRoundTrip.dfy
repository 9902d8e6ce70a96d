// Parsing what was printed.
module JsonRoundTrip {
  import opened Bytes
  import opened CString
  import opened Json
  import opened JsonGrammar
  import opened JsonNumbers
  import opened JsonNumerals
  import opened JsonParse
  import opened JsonStrings

  // ---- numbers

  // the digits written for a number denote it
  lemma {:induction false} DigitsAre(n: nat)
    ensures AllDigits(Digits(n)) && DigitsValue(Digits(n)) == n && (Digits(n)[0] == 48 ==> |Digits(n)| == 1)
  {
    if n >= 10 {
      DigitsAre(n / 10);
      assert Digits(n)[..|Digits(n)| - 1] == Digits(n / 10);
    } else {
      assert Digits(n)[..0] == [];
    }
  }

  // the printed text of an int is a numeral
  lemma NumberIsNumeral(d: real) returns (n: Numeral)
    requires IsInt(d)
    ensures WellNumbered(n) && NumeralText(n) == PrintNumber(d) && NumeralValue(n) == d
  {
    if d.Floor < 0 {
      n := NaturalIsNumeral(true, -d.Floor);
    } else {
      n := NaturalIsNumeral(false, d.Floor);
      assert [] + Digits(d.Floor) == Digits(d.Floor);
    }
  }

  lemma NaturalIsNumeral(minus: bool, m: int) returns (n: Numeral)
    requires m >= 0
    ensures WellNumbered(n) && NumeralText(n) == (if minus then [45] else []) + Digits(m)
    ensures NumeralValue(n) == (if minus then -m else m) as real
  {
    var t := Digits(m);
    n := Numeral(minus, t, [], NoPower);
    DigitsAre(m);
    assert t + [] == t;
    TextIsShort(n);
    SignedOne(minus, m);
  }

  lemma TextIsShort(n: Numeral)
    requires n.fraction == [] && n.power == NoPower
    ensures NumeralText(n) == (if n.minus then [45] else []) + n.whole
  {
    assert n.whole + ([] + []) == n.whole;
  }

  lemma SignedOne(minus: bool, m: int)
    ensures Signed(minus, m, Ratio(0, 0)) == (if minus then -m else m) as real
  {
  }

  lemma NumberParses(s: seq<byte>, i: nat, d: real)
    requires IsInt(d) && HasAt(s, i, PrintNumber(d)) && EndsNumber(At(s, i + |PrintNumber(d)|))
    ensures At(s, i) == MINUS || IsDigit(At(s, i))
    ensures ParseNumber(s, i) == (d, i + |PrintNumber(d)|)
  {
    var n := NumberIsNumeral(d);
    NumeralParses(s, i, i + |PrintNumber(d)|, n);
  }

  // ---- strings: the printer writes well-formed literals

  function UnitOf(c: byte): Unit {
    if c > 31 && c != QUOTE && c != BACKSLASH then Plain(c)
    else if |Escape(c)| == 2 then Short(Escape(c)[1])
    else Code([ZERO, ZERO, HexDigit(c / 16 % 16), HexDigit(c % 16)])
  }

  lemma UnitMeans(c: byte)
    requires c != 0
    ensures WellFormed(UnitOf(c)) && Written(UnitOf(c)) == Escape(c) && Meaning(UnitOf(c)) == [c]
  {
  }

  // a quote, a backslash and the control characters are escaped, five of these by a letter and the others by four
  // digits, and nothing else
  lemma EscapeForms(c: byte)
    requires c != 0
    ensures c in [34, 92] ==> Escape(c) == [92, c]
    ensures c in [8, 9, 10, 12, 13] ==> Escape(c) == [92, [98, 116, 110, 0, 102, 114][c - 8]]
    ensures c < 32 && c !in [8, 9, 10, 12, 13] ==> Escape(c) == [92, 117] + QuadOf(c, [false, false, false, false])
    ensures c >= 32 && c !in [34, 92] ==> Escape(c) == [c]
  {
    if c < 32 && c !in [8, 9, 10, 12, 13] {
      DigitsAgree(c / 16);
      DigitsAgree(c % 16);
      assert QuadOf(c, [false, false, false, false]) == [48, 48, HexOf(c / 16, false), HexOf(c % 16, false)];
    }
  }

  lemma DigitsAgree(n: nat)
    requires n < 16
    ensures HexDigit(n) == HexOf(n, false)
  {
  }

  function Units(s: seq<byte>): seq<Unit> {
    if s == [] then [] else [UnitOf(s[0])] + Units(s[1..])
  }

  lemma {:induction false} UnitsMean(s: seq<byte>)
    requires IsText(s)
    ensures AllWellFormed(Units(s)) && Literal(Units(s)) == Escapes(s) && Text(Units(s)) == s
  {
    if s != [] {
      UnitMeans(s[0]);
      UnitsMean(s[1..]);
      assert Units(s)[1..] == Units(s[1..]);
      assert s == [s[0]] + s[1..];
    }
  }

  // ---- every print is such a text

  lemma StartOfValue(v: Json, depth: nat, fmt: bool)
    requires Printable(v)
    ensures var t := Print(v, depth, fmt); t != [] && t[0] > SPACE && t[0] != RBRACKET && t[0] != RBRACE
  {
  }

  lemma ValueStarts(v: Json, s: seq<byte>, i: nat, j: nat, depth: nat, fmt: bool)
    requires Printable(v) && Spans(s, i, j, Print(v, depth, fmt))
    ensures Print(v, depth, fmt) != [] && At(s, i) == Print(v, depth, fmt)[0]
    ensures At(s, i) !in [RBRACKET, RBRACE] && Skip(s, i) == i
  {
    StartOfValue(v, depth, fmt);
    SpanStarts(s, i, j, Print(v, depth, fmt));
  }

  lemma {:induction false} PrintIsLaid(v: Json, s: seq<byte>, i: nat, j: nat, depth: nat, fmt: bool)
    requires Printable(v) && Spans(s, i, j, Print(v, depth, fmt))
    requires v.Number? ==> EndsNumber(At(s, j))
    ensures Laid(v, s, i, j, false)
    decreases v, 1
  {
    match v
    case Null =>
    case False =>
    case True =>
    case Number(d) => NumberIsLaid(d, s, i, j);
    case String(text) => StringIsLaid(text, s, i, j);
    case Array(items) => ArrayIsLaid(items, s, i, j, depth, fmt);
    case Object(members) => ObjectIsLaid(members, s, i, j, depth, fmt);
  }

  lemma NumberIsLaid(d: real, s: seq<byte>, i: nat, j: nat)
    requires IsInt(d) && Spans(s, i, j, PrintNumber(d)) && EndsNumber(At(s, j))
    ensures LaidNumber(d, s, i, j, false)
  {
    var n := NumberIsNumeral(d);
    assert Denotes(n, d, s, i, j);
  }

  lemma StringIsLaid(text: seq<byte>, s: seq<byte>, i: nat, j: nat)
    requires IsText(text) && Spans(s, i, j, PrintString(text))
    ensures LaidString(text, s, i, j, false)
  {
    UnitsMean(text);
    assert Spells(Units(text), text, s, i, j);
  }

  // ---- arrays

  // where the items and the closing bracket of an array stand
  lemma ArrayLayout(items: seq<Json>, s: seq<byte>, i: nat, j: nat, depth: nat, fmt: bool) returns (after: nat)
    requires Spans(s, i, j, PrintArray(items, depth, fmt))
    ensures At(s, i) == LBRACKET && Spans(s, i + 1, after, PrintItems(items, depth + 1, fmt))
    ensures At(s, after) == RBRACKET && j == after + 1
  {
    var body := PrintItems(items, depth + 1, fmt);
    after := SpanSplit(s, i, j, [LBRACKET] + body, [RBRACKET]);
    var start := SpanSplit(s, i, after, [LBRACKET], body);
    SpanStarts(s, i, start, [LBRACKET]);
    SpanStarts(s, after, j, [RBRACKET]);
  }

  lemma ArrayIsLaid(items: seq<Json>, s: seq<byte>, i: nat, j: nat, depth: nat, fmt: bool)
    requires PrintableItems(items) && Spans(s, i, j, PrintArray(items, depth, fmt))
    ensures LaidArray(items, s, i, j, false)
    decreases items, 3
  {
    var after := ArrayLayout(items, s, i, j, depth, fmt);
    if items != [] {
      ItemsAreLaid(items, s, i + 1, i + 1, after, depth + 1, fmt);
    }
  }

  lemma ItemsLayout(items: seq<Json>, s: seq<byte>, i: nat, j: nat, depth: nat, fmt: bool) returns (p: nat)
    requires items != [] && Spans(s, i, j, PrintItems(items, depth, fmt))
    ensures Spans(s, i, p, Print(items[0], depth, fmt)) && Spans(s, p, j, ItemsTail(items[1..], depth, fmt))
    ensures items[1..] == [] ==> p == j
    ensures items == [items[0]] + items[1..]
  {
    p := SpanSplit(s, i, j, Print(items[0], depth, fmt), ItemsTail(items[1..], depth, fmt));
  }

  lemma {:induction false} ItemsAreLaid(items: seq<Json>, s: seq<byte>, i0: nat, i: nat, j: nat, depth: nat, fmt: bool)
    requires items != [] && PrintableItems(items)
    requires Skip(s, i0) == Skip(s, i) && Spans(s, i, j, PrintItems(items, depth, fmt)) && At(s, j) == RBRACKET
    ensures LaidItems(items, s, i0, j + 1, false)
    decreases items, 2
  {
    var p := ItemsLayout(items, s, i, j, depth, fmt);
    ValueStarts(items[0], s, i, p, depth, fmt);
    if items[1..] != [] {
      RestIsLaid(items[1..], s, p, j, depth, fmt);
    }
    PrintIsLaid(items[0], s, i, p, depth, fmt);
    assert Laid(items[0], s, Skip(s, i0), p, false) && LaidRest(items[1..], s, Skip(s, p), j + 1, false);
  }

  lemma RestIsLaid(items: seq<Json>, s: seq<byte>, p: nat, j: nat, depth: nat, fmt: bool)
    requires items != [] && PrintableItems(items)
    requires Spans(s, p, j, ItemsTail(items, depth, fmt)) && At(s, j) == RBRACKET
    ensures At(s, p) == COMMA && LaidRest(items, s, p, j + 1, false)
    decreases items, 4
  {
    var i := SpanSplit(s, p, j, Comma(fmt), PrintItems(items, depth, fmt));
    SpanStarts(s, p, i, Comma(fmt));
    if fmt {
      HasByte(s, p, Comma(fmt), 1);
    }
    ItemsAreLaid(items, s, p + 1, i, j, depth, fmt);
  }

  // ---- objects

  // where the members and the closing brace of an object stand
  lemma ObjectLayout(members: seq<Member>, s: seq<byte>, i: nat, j: nat, depth: nat, fmt: bool) returns (p: nat, q: nat)
    requires Spans(s, i, j, PrintObject(members, depth, fmt))
    ensures At(s, i) == LBRACE && Skip(s, i + 1) == Skip(s, p)
    ensures Spans(s, p, q, PrintMembers(members, depth + 1, fmt)) && (members == [] ==> p == q)
    ensures At(s, Skip(s, q)) == RBRACE && Skip(s, q) + 1 == j
  {
    var body := PrintMembers(members, depth + 1, fmt);
    var l, t;
    l, p, q, t := SpanFive(s, i, j, [LBRACE], LineEnd(fmt), body, Indent(depth, fmt), [RBRACE]);
    SpanStarts(s, i, l, [LBRACE]);
    SkipsBlank(s, l, p, LineEnd(fmt));
    SkipsBlank(s, q, t, Indent(depth, fmt));
    SpanStarts(s, t, j, [RBRACE]);
  }

  lemma ObjectIsLaid(members: seq<Member>, s: seq<byte>, i: nat, j: nat, depth: nat, fmt: bool)
    requires PrintableMembers(members) && Spans(s, i, j, PrintObject(members, depth, fmt))
    ensures LaidObject(members, s, i, j, false)
    decreases members, 6
  {
    var p, q := ObjectLayout(members, s, i, j, depth, fmt);
    if members == [] {
      EmptyBraces(s, i, q, j);
    } else {
      MembersInBraces(members, s, i, p, q, depth + 1, fmt, Skip(s, q));
    }
  }

  lemma EmptyBraces(s: seq<byte>, i: nat, q: nat, j: nat)
    requires At(s, i) == LBRACE && Skip(s, i + 1) == Skip(s, q)
    requires At(s, Skip(s, q)) == RBRACE && Skip(s, q) + 1 == j
    ensures LaidObject([], s, i, j, false)
  {
  }

  lemma MembersInBraces(members: seq<Member>, s: seq<byte>, i: nat, p: nat, q: nat, depth: nat, fmt: bool, stop: nat)
    requires members != [] && PrintableMembers(members) && At(s, i) == LBRACE && Skip(s, i + 1) == Skip(s, p)
    requires Spans(s, p, q, PrintMembers(members, depth, fmt)) && Skip(s, q) == stop && At(s, stop) == RBRACE
    ensures LaidObject(members, s, i, stop + 1, false)
    decreases members, 5
  {
    MembersAreLaid(members, s, i + 1, p, q, depth, fmt, stop);
  }

  lemma MembersLayout(members: seq<Member>, s: seq<byte>, i: nat, j: nat, depth: nat, fmt: bool) returns (p: nat)
    requires members != [] && Spans(s, i, j, PrintMembers(members, depth, fmt))
    ensures Spans(s, i, p, PrintMember(members[0], members[1..] == [], depth, fmt))
    ensures Spans(s, p, j, PrintMembers(members[1..], depth, fmt))
    ensures members[1..] == [] ==> p == j
    ensures members == [members[0]] + members[1..]
  {
    var first, rest := PrintMember(members[0], members[1..] == [], depth, fmt), PrintMembers(members[1..], depth, fmt);
    assert PrintMembers(members, depth, fmt) == first + rest;
    p := SpanSplit(s, i, j, first, rest);
  }

  // the members of an object, of which only blanks and the closing brace follow
  lemma {:induction false} MembersAreLaid(members: seq<Member>, s: seq<byte>, i0: nat, i: nat, j: nat, depth: nat,
                                          fmt: bool, stop: nat)
    requires members != [] && PrintableMembers(members) && Skip(s, i0) == Skip(s, i)
    requires Spans(s, i, j, PrintMembers(members, depth, fmt)) && Skip(s, j) == stop && At(s, stop) == RBRACE
    ensures LaidMembers(members, s, i0, stop + 1, false)
    decreases members, 4
  {
    var end := FirstIsLaid(members, s, i0, i, j, depth, fmt, stop);
  }

  lemma FirstIsLaid(members: seq<Member>, s: seq<byte>, i0: nat, i: nat, j: nat, depth: nat, fmt: bool, stop: nat)
    returns (end: nat)
    requires members != [] && PrintableMembers(members) && Skip(s, i0) == Skip(s, i)
    requires Spans(s, i, j, PrintMembers(members, depth, fmt)) && Skip(s, j) == stop && At(s, stop) == RBRACE
    ensures LaidMember(members[0], s, Skip(s, i0), end, false)
    ensures LaidMore(members[1..], s, Skip(s, end), stop + 1, false)
    decreases members, 3
  {
    var p := MembersLayout(members, s, i, j, depth, fmt);
    end := MemberAndMore(members, members[0], members[1..], s, i0, i, p, j, depth, fmt, stop);
  }

  lemma MemberAndMore(members: seq<Member>, m: Member, rest: seq<Member>, s: seq<byte>, i0: nat, i: nat, p: nat, j: nat,
                      depth: nat, fmt: bool, stop: nat) returns (end: nat)
    requires members != [] && m == members[0] && rest == members[1..]
    requires IsText(m.name) && Printable(m.value) && PrintableMembers(rest)
    requires Skip(s, i0) == Skip(s, i) && Spans(s, i, p, PrintMember(m, rest == [], depth, fmt))
    requires Spans(s, p, j, PrintMembers(rest, depth, fmt)) && Skip(s, j) == stop && At(s, stop) == RBRACE
    requires rest == [] ==> p == j
    ensures LaidMember(m, s, Skip(s, i0), end, false) && LaidMore(rest, s, Skip(s, end), stop + 1, false)
    decreases members, 2
  {
    end := MemberIsLaid(m, rest == [], s, i0, i, p, depth, fmt);
    MoreIsLaid(members, rest, s, end, p, j, depth, fmt, stop);
  }

  // behind a member: a comma and more of them, or only what closes the object
  lemma MoreIsLaid(members: seq<Member>, rest: seq<Member>, s: seq<byte>, end: nat, p: nat, j: nat, depth: nat,
                   fmt: bool, stop: nat)
    requires members != [] && rest == members[1..]
    requires PrintableMembers(rest) && Spans(s, p, j, PrintMembers(rest, depth, fmt))
    requires if rest == [] then Skip(s, end) == Skip(s, p) else At(s, end) == COMMA && Skip(s, end + 1) == Skip(s, p)
    requires Skip(s, j) == stop && At(s, stop) == RBRACE
    ensures LaidMore(rest, s, Skip(s, end), stop + 1, false)
    decreases members, 1
  {
    if rest != [] { MembersAreLaid(rest, s, end + 1, p, j, depth, fmt, stop); }
  }

  // a member, its comma if another one follows, and its line feed
  lemma MemberIsLaid(m: Member, last: bool, s: seq<byte>, i0: nat, i: nat, j: nat, depth: nat, fmt: bool)
    returns (end: nat)
    requires IsText(m.name) && Printable(m.value) && Skip(s, i0) == Skip(s, i)
    requires Spans(s, i, j, PrintMember(m, last, depth, fmt))
    requires last ==> At(s, Skip(s, j)) == RBRACE
    ensures LaidMember(m, s, Skip(s, i0), end, false)
    ensures last ==> Skip(s, end) == Skip(s, j)
    ensures !last ==> At(s, end) == COMMA && Skip(s, end + 1) == Skip(s, j)
    decreases m, 2
  {
    var a, b, c;
    a, b, c, end := MemberLayout(m, last, s, i, j, depth, fmt);
    EndSkips(s, end, j, last, fmt);
    ValueStarts(m.value, s, c, end, depth, fmt);
    PrintIsLaid(m.value, s, c, end, depth, fmt);
    NameIsLaid(m.name, s, i0, i, a, b, depth, fmt);
    ColonIsLaid(s, b, c, fmt);
  }

  // where the parts of a member stand: name, colon, value and end
  lemma MemberLayout(m: Member, last: bool, s: seq<byte>, i: nat, j: nat, depth: nat, fmt: bool)
    returns (a: nat, b: nat, c: nat, e: nat)
    requires Spans(s, i, j, PrintMember(m, last, depth, fmt))
    ensures Spans(s, i, a, Indent(depth, fmt)) && Spans(s, a, b, PrintString(m.name)) && Spans(s, b, c, Colon(fmt))
    ensures Spans(s, c, e, Print(m.value, depth, fmt)) && Spans(s, e, j, MemberEnd(last, fmt))
  {
    a, b, c, e := SpanFive(s, i, j, Indent(depth, fmt), PrintString(m.name), Colon(fmt), Print(m.value, depth, fmt),
                           MemberEnd(last, fmt));
  }

  lemma NameIsLaid(name: seq<byte>, s: seq<byte>, i0: nat, i: nat, a: nat, b: nat, depth: nat, fmt: bool)
    requires IsText(name) && Skip(s, i0) == Skip(s, i)
    requires Spans(s, i, a, Indent(depth, fmt)) && Spans(s, a, b, PrintString(name))
    ensures LaidString(name, s, Skip(s, i0), b, false)
  {
    SkipsBlank(s, i, a, Indent(depth, fmt));
    SpanStarts(s, a, b, PrintString(name));
    StringIsLaid(name, s, a, b);
  }

  lemma ColonIsLaid(s: seq<byte>, b: nat, c: nat, fmt: bool)
    requires Spans(s, b, c, Colon(fmt)) && Skip(s, c) == c
    ensures LaidColon(s, b, c)
  {
    SpanStarts(s, b, c, Colon(fmt));
    if fmt {
      HasByte(s, b, Colon(fmt), 1);
    }
  }

  lemma EndSkips(s: seq<byte>, e: nat, j: nat, last: bool, fmt: bool)
    requires Spans(s, e, j, MemberEnd(last, fmt))
    requires last ==> At(s, Skip(s, j)) == RBRACE
    ensures last ==> Skip(s, e) == Skip(s, j)
    ensures !last ==> At(s, e) == COMMA && Skip(s, e + 1) == Skip(s, j)
    ensures EndsNumber(At(s, e))
  {
    var comma := if last then [] else [COMMA];
    var p := SpanSplit(s, e, j, comma, LineEnd(fmt));
    SkipsBlank(s, p, j, LineEnd(fmt));
    if !last {
      SpanStarts(s, e, p, comma);
    }
  }

  // ---- round trips

  lemma ValueParses(v: Json, s: seq<byte>, i: nat, j: nat, depth: nat, fmt: bool)
    requires Printable(v) && Spans(s, i, j, Print(v, depth, fmt))
    requires v.Number? ==> EndsNumber(At(s, j))
    ensures ParseValue(s, i) == Ok(v, j)
  {
    PrintIsLaid(v, s, i, j, depth, fmt);
    LaidParses(v, s, i, j, false);
  }

  // parsing a print gives the tree back and stops at the end of the text
  lemma PrintThenParse(v: Json, fmt: bool, terminated: bool)
    requires Printable(v)
    ensures var t := Print(v, 0, fmt); ParseText(t, terminated) == Ok(v, |t|)
  {
    var t := Print(v, 0, fmt);
    HasSlice(t, 0, t);
    ValueStarts(v, t, 0, |t|, 0, fmt);
    ValueParses(v, t, 0, |t|, 0, fmt);
  }

  // so the print loses nothing
  lemma PrintIsInjective(v: Json, w: Json, fmt: bool)
    requires Printable(v) && Printable(w) && Print(v, 0, fmt) == Print(w, 0, fmt)
    ensures v == w
  {
    PrintThenParse(v, fmt, false);
    PrintThenParse(w, fmt, false);
  }
}
