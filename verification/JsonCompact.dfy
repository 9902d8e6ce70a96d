// Minifying what was printed.
module JsonCompact {
  import opened Bytes
  import opened CString
  import opened Json
  import opened JsonGrammar
  import opened JsonMinify
  import opened JsonRoundTrip
  import opened JsonStrings
  import opened Sequences

  // minifying turns the text of s from i to j into t, whatever follows
  predicate Becomes(s: seq<byte>, i: nat, j: nat, t: seq<byte>) {
    Closed(s, j) ==> Closed(s, i) && Minified(s, i) == t + Minified(s, j)
  }

  lemma BecomesBoth(s: seq<byte>, i: nat, j: nat, k: nat, t: seq<byte>, u: seq<byte>)
    requires Becomes(s, i, j, t) && Becomes(s, j, k, u)
    ensures Becomes(s, i, k, t + u)
  {
    if Closed(s, k) {
      Assoc(t, u, Minified(s, k));
    }
  }

  lemma BecomesFive(s: seq<byte>, i: nat, p: nat, q: nat, r: nat, t: nat, j: nat,
                    a: seq<byte>, b: seq<byte>, c: seq<byte>, d: seq<byte>, e: seq<byte>)
    requires Becomes(s, i, p, a) && Becomes(s, p, q, b) && Becomes(s, q, r, c)
    requires Becomes(s, r, t, d) && Becomes(s, t, j, e)
    ensures Becomes(s, i, j, a + b + c + d + e)
  {
    BecomesBoth(s, i, p, q, a, b);
    BecomesBoth(s, i, q, r, a + b, c);
    BecomesBoth(s, i, r, t, a + b + c, d);
    BecomesBoth(s, i, t, j, a + b + c + d, e);
  }

  lemma {:induction false} BlankVanishes(s: seq<byte>, i: nat, t: seq<byte>)
    requires HasAt(s, i, t) && forall k :: 0 <= k < |t| ==> IsBlank(t[k])
    ensures Becomes(s, i, i + |t|, [])
    decreases |t|
  {
    if t == [] {
      assert Closed(s, i) ==> [] + Minified(s, i) == Minified(s, i);
    } else {
      BlankVanishes(s, i + 1, t[1..]);
      assert Becomes(s, i, i + 1, []) by {
        assert Closed(s, i + 1) ==> [] + Minified(s, i + 1) == Minified(s, i);
      }
      BecomesBoth(s, i, i + 1, i + |t|, [], []);
    }
  }

  predicate Stays(c: byte) {
    c != 0 && !IsBlank(c) && c != SLASH && c != QUOTE
  }

  lemma PlainStays(s: seq<byte>, i: nat)
    requires i < |s| && Stays(s[i])
    ensures Becomes(s, i, i + 1, [s[i]])
  {
    assert s[i..i + 1] == [s[i]];
  }

  lemma {:induction false} PlainRunStays(s: seq<byte>, i: nat, t: seq<byte>)
    requires HasAt(s, i, t) && forall k :: 0 <= k < |t| ==> Stays(t[k])
    ensures Becomes(s, i, i + |t|, t)
    decreases |t|
  {
    if t == [] {
      assert Closed(s, i) ==> [] + Minified(s, i) == Minified(s, i);
    } else {
      PlainStays(s, i);
      PlainRunStays(s, i + 1, t[1..]);
      BecomesBoth(s, i, i + 1, i + |t|, [t[0]], t[1..]);
      assert t == [t[0]] + t[1..];
    }
  }

  lemma CrossPlain(s: seq<byte>, p: nat)
    requires At(s, p) !in [0, QUOTE, BACKSLASH]
    ensures LiteralStop(s, p) == LiteralStop(s, p + 1)
  {
  }

  lemma CrossBackslash(s: seq<byte>, p: nat)
    requires At(s, p) == BACKSLASH
    ensures LiteralStop(s, p) == LiteralStop(s, p + 2)
  {
  }

  lemma CrossQuad(s: seq<byte>, p: nat, h: seq<byte>)
    requires IsQuad(h) && HasAt(s, p, h)
    ensures LiteralStop(s, p) == LiteralStop(s, p + 4)
  {
    HasByte(s, p, h, 0);
    HasByte(s, p, h, 1);
    HasByte(s, p, h, 2);
    HasByte(s, p, h, 3);
    CrossPlain(s, p);
    CrossPlain(s, p + 1);
    CrossPlain(s, p + 2);
    CrossPlain(s, p + 3);
  }

  lemma CrossCode(s: seq<byte>, p: nat, h: seq<byte>)
    requires IsQuad(h) && HasAt(s, p, [BACKSLASH, LETTER_U] + h)
    ensures LiteralStop(s, p) == LiteralStop(s, p + 6)
  {
    HasSplit(s, p, [BACKSLASH, LETTER_U], h);
    HasByte(s, p, [BACKSLASH, LETTER_U], 0);
    CrossBackslash(s, p);
    CrossQuad(s, p + 2, h);
  }

  lemma UnitIsCrossed(s: seq<byte>, p: nat, u: Unit)
    requires WellFormed(u) && HasAt(s, p, Written(u))
    ensures LiteralStop(s, p) == LiteralStop(s, p + |Written(u)|)
  {
    match u
    case Plain(c) =>
      HasByte(s, p, Written(u), 0);
      CrossPlain(s, p);
    case Short(letter) =>
      HasByte(s, p, Written(u), 0);
      CrossBackslash(s, p);
    case Code(h) => CrossCode(s, p, h);
    case Pair(h, l) =>
      PairParts(s, p, h, l);
      CrossCode(s, p, h);
      CrossCode(s, p + 6, l);
  }

  // a well-formed literal is crossed to its closing quote
  lemma {:induction false} UnitsAreCrossed(s: seq<byte>, p: nat, units: seq<Unit>, end: nat)
    requires AllWellFormed(units) && HasAt(s, p, Literal(units))
    requires end == p + |Literal(units)| && At(s, end) == QUOTE
    ensures LiteralStop(s, p) == end
    decreases |units|
  {
    if units != [] {
      var q := UnitsLayout(s, p, units);
      TextSplit(units);
      UnitIsCrossed(s, p, units[0]);
      UnitsAreCrossed(s, q, units[1..], end);
    }
  }

  lemma UnitsStay(s: seq<byte>, i: nat, j: nat, units: seq<Unit>)
    requires AllWellFormed(units) && Spans(s, i, j, [QUOTE] + Literal(units) + [QUOTE])
    ensures i < j && Becomes(s, i, j, [QUOTE] + Literal(units) + [QUOTE]) && (Closed(s, i) ==> Closed(s, j))
  {
    Quoted(s, i, Literal(units));
    UnitsAreCrossed(s, i + 1, units, i + 1 + |Literal(units)|);
    QuotedStays(s, i, j, Literal(units));
  }

  lemma QuotedStays(s: seq<byte>, i: nat, j: nat, lit: seq<byte>)
    requires Spans(s, i, j, [QUOTE] + lit + [QUOTE]) && LiteralStop(s, i + 1) == i + 1 + |lit|
    ensures i < j && Becomes(s, i, j, [QUOTE] + lit + [QUOTE]) && (Closed(s, i) ==> Closed(s, j))
  {
    Quoted(s, i, lit);
    HasByte(s, i, [QUOTE] + lit + [QUOTE], |lit| + 1);
    HasSlice(s, i, [QUOTE] + lit + [QUOTE]);
    LiteralStays(s, i, j);
  }

  lemma LiteralStays(s: seq<byte>, i: nat, j: nat)
    requires i < |s| && s[i] == QUOTE && LiteralStop(s, i + 1) + 1 == j <= |s|
    ensures Becomes(s, i, j, s[i..j]) && (Closed(s, i) ==> Closed(s, j))
  {
  }

  lemma StringStays(s: seq<byte>, i: nat, j: nat, x: seq<byte>)
    requires IsText(x) && Spans(s, i, j, PrintString(x))
    ensures Becomes(s, i, j, PrintString(x))
  {
    UnitsMean(x);
    UnitsStay(s, i, j, Units(x));
  }

  // ---- each part of a print becomes its unformatted form

  lemma NumberIsPlain(d: real)
    ensures forall k :: 0 <= k < |PrintNumber(d)| ==> Stays(PrintNumber(d)[k])
  {
  }

  // a byte that stays and blanks that vanish
  lemma LeadBecomes(s: seq<byte>, i: nat, j: nat, c: byte, blank: seq<byte>)
    requires Stays(c) && Spans(s, i, j, [c] + blank) && forall k :: 0 <= k < |blank| ==> IsBlank(blank[k])
    ensures Becomes(s, i, j, [c])
  {
    var p := SpanSplit(s, i, j, [c], blank);
    PlainRunStays(s, i, [c]);
    BlankVanishes(s, p, blank);
    BecomesBoth(s, i, p, j, [c], []);
  }

  lemma {:induction false} ValueBecomes(v: Json, s: seq<byte>, i: nat, j: nat, depth: nat, fmt: bool)
    requires Printable(v) && Spans(s, i, j, Print(v, depth, fmt))
    ensures Becomes(s, i, j, Print(v, depth, false))
    decreases v, 5
  {
    match v
    case Null => PlainRunStays(s, i, NULL_TEXT);
    case False => PlainRunStays(s, i, FALSE_TEXT);
    case True => PlainRunStays(s, i, TRUE_TEXT);
    case Number(d) =>
      NumberIsPlain(d);
      PlainRunStays(s, i, PrintNumber(d));
    case String(x) => StringStays(s, i, j, x);
    case Array(items) => ArrayBecomes(items, s, i, j, depth, fmt);
    case Object(members) => ObjectBecomes(members, s, i, j, depth, fmt);
  }

  lemma ArrayBecomes(items: seq<Json>, s: seq<byte>, i: nat, j: nat, depth: nat, fmt: bool)
    requires PrintableItems(items) && Spans(s, i, j, PrintArray(items, depth, fmt))
    ensures Becomes(s, i, j, PrintArray(items, depth, false))
    decreases items, 4
  {
    var body, plain := PrintItems(items, depth + 1, fmt), PrintItems(items, depth + 1, false);
    var q := SpanSplit(s, i, j, [LBRACKET] + body, [RBRACKET]);
    var p := SpanSplit(s, i, q, [LBRACKET], body);
    PlainRunStays(s, i, [LBRACKET]);
    ItemsBecome(items, s, p, q, depth + 1, fmt);
    PlainRunStays(s, q, [RBRACKET]);
    BecomesBoth(s, i, p, q, [LBRACKET], plain);
    BecomesBoth(s, i, q, j, [LBRACKET] + plain, [RBRACKET]);
  }

  lemma {:induction false} ItemsBecome(items: seq<Json>, s: seq<byte>, i: nat, j: nat, depth: nat, fmt: bool)
    requires PrintableItems(items) && Spans(s, i, j, PrintItems(items, depth, fmt))
    ensures Becomes(s, i, j, PrintItems(items, depth, false))
    decreases items, 2
  {
    if items == [] {
      PlainRunStays(s, i, []);
    } else {
      var p := ItemsLayout(items, s, i, j, depth, fmt);
      ValueBecomes(items[0], s, i, p, depth, fmt);
      TailBecomes(items[1..], s, p, j, depth, fmt);
      BecomesBoth(s, i, p, j, Print(items[0], depth, false), ItemsTail(items[1..], depth, false));
    }
  }

  lemma TailBecomes(items: seq<Json>, s: seq<byte>, i: nat, j: nat, depth: nat, fmt: bool)
    requires PrintableItems(items) && Spans(s, i, j, ItemsTail(items, depth, fmt))
    ensures Becomes(s, i, j, ItemsTail(items, depth, false))
    decreases items, 3
  {
    if items == [] {
      PlainRunStays(s, i, []);
    } else {
      var p := SpanSplit(s, i, j, Comma(fmt), PrintItems(items, depth, fmt));
      CommaBecomes(s, i, p, fmt);
      ItemsBecome(items, s, p, j, depth, fmt);
      BecomesBoth(s, i, p, j, [COMMA], PrintItems(items, depth, false));
    }
  }

  lemma LineEndVanishes(s: seq<byte>, i: nat, j: nat, fmt: bool)
    requires Spans(s, i, j, LineEnd(fmt))
    ensures Becomes(s, i, j, [])
  {
    BlankVanishes(s, i, LineEnd(fmt));
  }

  lemma IndentVanishes(s: seq<byte>, i: nat, j: nat, depth: nat, fmt: bool)
    requires Spans(s, i, j, Indent(depth, fmt))
    ensures Becomes(s, i, j, [])
  {
    BlankVanishes(s, i, Indent(depth, fmt));
  }

  lemma CommaBecomes(s: seq<byte>, i: nat, j: nat, fmt: bool)
    requires Spans(s, i, j, Comma(fmt))
    ensures Becomes(s, i, j, [COMMA])
  {
    assert Comma(fmt) == [COMMA] + Comma(fmt)[1..];
    LeadBecomes(s, i, j, COMMA, Comma(fmt)[1..]);
  }

  lemma ColonBecomes(s: seq<byte>, i: nat, j: nat, fmt: bool)
    requires Spans(s, i, j, Colon(fmt))
    ensures Becomes(s, i, j, [COLON])
  {
    assert Colon(fmt) == [COLON] + Colon(fmt)[1..];
    LeadBecomes(s, i, j, COLON, Colon(fmt)[1..]);
  }

  lemma EndBecomes(last: bool, s: seq<byte>, i: nat, j: nat, fmt: bool)
    requires Spans(s, i, j, MemberEnd(last, fmt))
    ensures Becomes(s, i, j, MemberEnd(last, false))
  {
    if last {
      BlankVanishes(s, i, MemberEnd(last, fmt));
    } else {
      LeadBecomes(s, i, j, COMMA, LineEnd(fmt));
    }
  }

  lemma ObjectBecomes(members: seq<Member>, s: seq<byte>, i: nat, j: nat, depth: nat, fmt: bool)
    requires PrintableMembers(members) && Spans(s, i, j, PrintObject(members, depth, fmt))
    ensures Becomes(s, i, j, PrintObject(members, depth, false))
    decreases members, 4
  {
    var body, plain := PrintMembers(members, depth + 1, fmt), PrintMembers(members, depth + 1, false);
    var p, q, r, t := SpanFive(s, i, j, [LBRACE], LineEnd(fmt), body, Indent(depth, fmt), [RBRACE]);
    MembersBecome(members, s, q, r, depth + 1, fmt);
    FrameBecomes(s, i, p, q, r, t, j, depth, fmt, plain);
  }

  // the braces around members that become plain
  lemma FrameBecomes(s: seq<byte>, i: nat, p: nat, q: nat, r: nat, t: nat, j: nat, depth: nat, fmt: bool,
                     plain: seq<byte>)
    requires Spans(s, i, p, [LBRACE]) && Spans(s, p, q, LineEnd(fmt)) && Becomes(s, q, r, plain)
    requires Spans(s, r, t, Indent(depth, fmt)) && Spans(s, t, j, [RBRACE])
    ensures Becomes(s, i, j, [LBRACE] + [] + plain + [] + [RBRACE])
  {
    PlainRunStays(s, i, [LBRACE]);
    LineEndVanishes(s, p, q, fmt);
    IndentVanishes(s, r, t, depth, fmt);
    PlainRunStays(s, t, [RBRACE]);
    BecomesFive(s, i, p, q, r, t, j, [LBRACE], [], plain, [], [RBRACE]);
  }

  lemma {:induction false} MembersBecome(members: seq<Member>, s: seq<byte>, i: nat, j: nat, depth: nat, fmt: bool)
    requires PrintableMembers(members) && Spans(s, i, j, PrintMembers(members, depth, fmt))
    ensures Becomes(s, i, j, PrintMembers(members, depth, false))
    decreases members, 2
  {
    if members == [] {
      PlainRunStays(s, i, []);
    } else {
      var last := members[1..] == [];
      var p := MembersLayout(members, s, i, j, depth, fmt);
      MemberBecomes(members[0], last, s, i, p, depth, fmt);
      MembersBecome(members[1..], s, p, j, depth, fmt);
      BecomesBoth(s, i, p, j, PrintMember(members[0], last, depth, false), PrintMembers(members[1..], depth, false));
    }
  }

  lemma MemberBecomes(m: Member, last: bool, s: seq<byte>, i: nat, j: nat, depth: nat, fmt: bool)
    requires IsText(m.name) && Printable(m.value) && Spans(s, i, j, PrintMember(m, last, depth, fmt))
    ensures Becomes(s, i, j, PrintMember(m, last, depth, false))
    decreases m, 1
  {
    var a, b, c, e := MemberLayout(m, last, s, i, j, depth, fmt);
    IndentVanishes(s, i, a, depth, fmt);
    StringStays(s, a, b, m.name);
    ColonBecomes(s, b, c, fmt);
    ValueBecomes(m.value, s, c, e, depth, fmt);
    EndBecomes(last, s, e, j, fmt);
    BecomesFive(s, i, a, b, c, e, j,
                [], PrintString(m.name), [COLON], Print(m.value, depth, false), MemberEnd(last, false));
  }

  // minifying a formatted print gives the unformatted one
  lemma MinifyUnformats(v: Json, fmt: bool)
    requires Printable(v)
    ensures Closed(Print(v, 0, fmt), 0) && Minified(Print(v, 0, fmt), 0) == Print(v, 0, false)
  {
    var s := Print(v, 0, fmt);
    HasSlice(s, 0, s);
    ValueBecomes(v, s, 0, |s|, 0, fmt);
    assert Print(v, 0, false) + [] == Print(v, 0, false);
  }
}
