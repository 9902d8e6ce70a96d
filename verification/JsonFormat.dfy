// The formatted print, from the unformatted one by rules for single characters.
module JsonFormat {
  import opened Bytes
  import opened CString
  import opened Json
  import opened JsonCompact
  import opened JsonGrammar
  import opened JsonMinify
  import opened JsonRoundTrip
  import opened JsonStrings
  import opened Sequences

  function Tabulators(n: nat): (t: seq<byte>)
    ensures |t| == n
  {
    seq(n, i => 9)
  }

  function NewLine(n: nat): seq<byte> {
    [10] + Tabulators(n)
  }

  // s from i on with white space, where these brackets are open, the innermost last: a line feed and as many
  // tabulators as brackets are open behind each brace and each comma between members, one tabulator less and the line
  // feed in front of a closing brace, a space behind other commas and a tabulator behind colons
  function Formatted(s: seq<byte>, i: nat, open: seq<byte>): seq<byte>
    decreases |s| - i
  {
    if i >= |s| then []
    else if s[i] == 34 then
      var j := LiteralStop(s, i + 1) + 1;
      if j > |s| then s[i..] else s[i..j] + Formatted(s, j, open)
    else if s[i] == 123 && At(s, i + 1) == 125 then [123, 10] + Tabulators(|open|) + [125] + Formatted(s, i + 2, open)
    else if s[i] == 123 then [123] + NewLine(|open| + 1) + Formatted(s, i + 1, open + [123])
    else if s[i] == 91 then [91] + Formatted(s, i + 1, open + [91])
    else if s[i] == 125 && open != [] then
      NewLine(|open| - 1) + [125] + Formatted(s, i + 1, open[..|open| - 1])
    else if s[i] == 93 && open != [] then [93] + Formatted(s, i + 1, open[..|open| - 1])
    else if s[i] == 44 && open != [] && open[|open| - 1] == 123 then
      [44] + NewLine(|open|) + Formatted(s, i + 1, open)
    else if s[i] == 44 then [44, 32] + Formatted(s, i + 1, open)
    else if s[i] == 58 then [58, 9] + Formatted(s, i + 1, open)
    else [s[i]] + Formatted(s, i + 1, open)
  }

  lemma TabsAre(depth: nat)
    ensures Indent(depth, true) == Tabulators(depth)
  {
  }

  // s from i to j is formatted to t
  ghost predicate Turns(s: seq<byte>, i: nat, j: nat, open: seq<byte>, t: seq<byte>) {
    Formatted(s, i, open) == t + Formatted(s, j, open)
  }

  lemma TurnsBoth(s: seq<byte>, i: nat, j: nat, k: nat, open: seq<byte>, t: seq<byte>, u: seq<byte>)
    requires Turns(s, i, j, open, t) && Turns(s, j, k, open, u)
    ensures Turns(s, i, k, open, t + u)
  {
    Assoc(t, u, Formatted(s, k, open));
  }

  predicate Ordinary(c: byte) {
    c !in [34, 44, 58, 91, 93, 123, 125]
  }

  lemma {:induction false} RunTurns(s: seq<byte>, i: nat, t: seq<byte>, open: seq<byte>)
    requires HasAt(s, i, t) && forall k :: 0 <= k < |t| ==> Ordinary(t[k])
    ensures Turns(s, i, i + |t|, open, t)
    decreases |t|
  {
    if t == [] {
      assert [] + Formatted(s, i, open) == Formatted(s, i, open);
    } else {
      RunTurns(s, i + 1, t[1..], open);
      assert Turns(s, i, i + 1, open, [t[0]]);
      TurnsBoth(s, i, i + 1, i + |t|, open, [t[0]], t[1..]);
      assert t == [t[0]] + t[1..];
    }
  }

  lemma StringTurns(s: seq<byte>, i: nat, j: nat, x: seq<byte>, open: seq<byte>)
    requires IsText(x) && Spans(s, i, j, PrintString(x))
    ensures Turns(s, i, j, open, PrintString(x))
  {
    UnitsMean(x);
    UnitsEnd(s, i, j, Units(x));
    LiteralTurns(s, i, j, PrintString(x), open);
  }

  lemma LiteralTurns(s: seq<byte>, i: nat, j: nat, t: seq<byte>, open: seq<byte>)
    requires Spans(s, i, j, t) && At(s, i) == 34 && LiteralStop(s, i + 1) + 1 == j
    ensures Turns(s, i, j, open, t)
  {
    HasSlice(s, i, t);
  }

  lemma UnitsEnd(s: seq<byte>, i: nat, j: nat, units: seq<Unit>)
    requires AllWellFormed(units) && Spans(s, i, j, [QUOTE] + Literal(units) + [QUOTE])
    ensures At(s, i) == 34 && LiteralStop(s, i + 1) + 1 == j
  {
    Quoted(s, i, Literal(units));
    UnitsAreCrossed(s, i + 1, units, i + 1 + |Literal(units)|);
  }

  lemma NumberTurns(s: seq<byte>, i: nat, d: real, open: seq<byte>)
    requires HasAt(s, i, PrintNumber(d))
    ensures Turns(s, i, i + |PrintNumber(d)|, open, PrintNumber(d))
  {
    RunTurns(s, i, PrintNumber(d), open);
  }

  // ---- the print of a value

  lemma {:induction false} ValueTurns(v: Json, s: seq<byte>, i: nat, j: nat, open: seq<byte>, t: seq<byte>)
    requires Printable(v) && Spans(s, i, j, Print(v, |open|, false)) && t == Print(v, |open|, true)
    ensures Turns(s, i, j, open, t)
    decreases v, 5
  {
    match v
    case Number(d) => NumberTurns(s, i, d, open);
    case String(x) => StringTurns(s, i, j, x, open);
    case Array(items) => ArrayTurns(items, s, i, j, open, t);
    case Object(members) => ObjectTurns(members, s, i, j, open, t);
    case _ => KeywordTurns(s, i, j, open, t);
  }

  lemma KeywordTurns(s: seq<byte>, i: nat, j: nat, open: seq<byte>, t: seq<byte>)
    requires t in [NULL_TEXT, FALSE_TEXT, TRUE_TEXT] && Spans(s, i, j, t)
    ensures Turns(s, i, j, open, t)
  {
    RunTurns(s, i, t, open);
  }

  // a bracket opened and closed around what stands inside
  lemma InBrackets(s: seq<byte>, i: nat, q: nat, j: nat, open: seq<byte>, t: seq<byte>, all: seq<byte>)
    requires At(s, i) == 91 && At(s, q) == 93 && j == q + 1 && Turns(s, i + 1, q, open + [91], t)
    requires all == [91] + t + [93]
    ensures Turns(s, i, j, open, all)
  {
    var inner, rest := open + [91], Formatted(s, j, open);
    assert inner[..|inner| - 1] == open;
    assert Formatted(s, q, inner) == [93] + rest;
    assert Formatted(s, i, open) == [91] + (t + ([93] + rest));
    Regroup([91], t, [93], rest);
  }

  lemma Regroup(a: seq<byte>, b: seq<byte>, c: seq<byte>, rest: seq<byte>)
    ensures a + (b + (c + rest)) == a + b + c + rest
  {
  }

  lemma ArrayTurns(items: seq<Json>, s: seq<byte>, i: nat, j: nat, open: seq<byte>, t: seq<byte>)
    requires PrintableItems(items) && Spans(s, i, j, PrintArray(items, |open|, false))
    requires t == PrintArray(items, |open|, true)
    ensures Turns(s, i, j, open, t)
    decreases items, 4
  {
    var after := ArrayLayout(items, s, i, j, |open|, false);
    var body := PrintItems(items, |open| + 1, true);
    ItemsTurn(items, s, i + 1, after, open + [91], body);
    InBrackets(s, i, after, j, open, body, t);
  }

  lemma {:induction false} ItemsTurn(items: seq<Json>, s: seq<byte>, i: nat, j: nat, open: seq<byte>, t: seq<byte>)
    requires PrintableItems(items) && Spans(s, i, j, PrintItems(items, |open|, false))
    requires open != [] && open[|open| - 1] == 91 && t == PrintItems(items, |open|, true)
    ensures Turns(s, i, j, open, t)
    decreases items, 2
  {
    if items == [] {
      RunTurns(s, i, [], open);
    } else {
      var p := ItemsLayout(items, s, i, j, |open|, false);
      var first, tail := Print(items[0], |open|, true), ItemsTail(items[1..], |open|, true);
      ValueTurns(items[0], s, i, p, open, first);
      TailTurns(items[1..], s, p, j, open, tail);
      TurnsBoth(s, i, p, j, open, first, tail);
    }
  }

  lemma TailTurns(items: seq<Json>, s: seq<byte>, i: nat, j: nat, open: seq<byte>, t: seq<byte>)
    requires PrintableItems(items) && Spans(s, i, j, ItemsTail(items, |open|, false))
    requires open != [] && open[|open| - 1] == 91 && t == ItemsTail(items, |open|, true)
    ensures Turns(s, i, j, open, t)
    decreases items, 3
  {
    if items == [] {
      RunTurns(s, i, [], open);
    } else {
      var p := SpanSplit(s, i, j, [COMMA], PrintItems(items, |open|, false));
      var more := PrintItems(items, |open|, true);
      CommaTurns(s, i, p, open);
      ItemsTurn(items, s, p, j, open, more);
      TurnsBoth(s, i, p, j, open, [44, 32], more);
    }
  }

  lemma CommaTurns(s: seq<byte>, i: nat, j: nat, open: seq<byte>)
    requires Spans(s, i, j, [COMMA]) && open != [] && open[|open| - 1] == 91
    ensures Turns(s, i, j, open, [44, 32])
  {
    SpanStarts(s, i, j, [COMMA]);
  }

  // ---- objects: the line feed behind a member belongs to the comma or to the closing brace

  // from a closing brace on, without its line feed
  function Closing(s: seq<byte>, j: nat, open: seq<byte>): seq<byte>
    requires open != []
  {
    Tabulators(|open| - 1) + [125] + Formatted(s, j + 1, open[..|open| - 1])
  }

  lemma ObjectTurns(members: seq<Member>, s: seq<byte>, i: nat, j: nat, open: seq<byte>, t: seq<byte>)
    requires PrintableMembers(members) && Spans(s, i, j, PrintObject(members, |open|, false))
    requires t == PrintObject(members, |open|, true)
    ensures Turns(s, i, j, open, t)
    decreases members, 4
  {
    var q := BracesLayout(members, s, i, j, |open|);
    var body := PrintMembers(members, |open| + 1, true);
    TabsAre(|open|);
    if members == [] {
      EmptyTurns(s, i, j, open, t);
    } else {
      MembersTurn(members, s, i + 1, q, open + [123], body);
      InBraces(s, i, q, j, open, body, t);
    }
  }

  lemma BracesLayout(members: seq<Member>, s: seq<byte>, i: nat, j: nat, depth: nat) returns (q: nat)
    requires Spans(s, i, j, PrintObject(members, depth, false))
    ensures At(s, i) == 123 && Spans(s, i + 1, q, PrintMembers(members, depth + 1, false))
    ensures At(s, q) == 125 && j == q + 1
  {
    var body := PrintMembers(members, depth + 1, false);
    var l, p, t;
    l, p, q, t := SpanFive(s, i, j, [LBRACE], [], body, [], [RBRACE]);
    SpanStarts(s, i, l, [LBRACE]);
    SpanStarts(s, t, j, [RBRACE]);
  }

  lemma EmptyTurns(s: seq<byte>, i: nat, j: nat, open: seq<byte>, all: seq<byte>)
    requires At(s, i) == 123 && At(s, i + 1) == 125 && j == i + 2
    requires all == [123] + [10] + [] + Tabulators(|open|) + [125]
    ensures Turns(s, i, j, open, all)
  {
    assert all == [123, 10] + Tabulators(|open|) + [125];
  }

  lemma InBraces(s: seq<byte>, i: nat, q: nat, j: nat, open: seq<byte>, body: seq<byte>, all: seq<byte>)
    requires At(s, i) == 123 && At(s, i + 1) != 125 && j == q + 1
    requires all == [123] + [10] + body + Tabulators(|open|) + [125]
    requires var inner := open + [123];
      Tabulators(|inner|) + Formatted(s, i + 1, inner) == body + Closing(s, q, inner)
    ensures Turns(s, i, j, open, all)
  {
    var inner, rest := open + [123], Formatted(s, j, open);
    assert inner[..|inner| - 1] == open;
    BraceOpens(Tabulators(|inner|), Formatted(s, i + 1, inner));
    BraceCloses(body, Tabulators(|open|), rest);
  }

  lemma BraceOpens(tabs: seq<byte>, rest: seq<byte>)
    ensures [123] + ([10] + tabs) + rest == [123] + [10] + (tabs + rest)
  {
  }

  lemma BraceCloses(body: seq<byte>, tabs: seq<byte>, rest: seq<byte>)
    ensures [123] + [10] + (body + (tabs + [125] + rest)) == [123] + [10] + body + tabs + [125] + rest
  {
  }

  // a member without its indent and its end
  function Core(m: Member, depth: nat): seq<byte> {
    PrintString(m.name) + [58, 9] + Print(m.value, depth, true)
  }

  lemma CorePrinted(m: Member, last: bool, depth: nat)
    ensures PrintMember(m, last, depth, true)
         == Tabulators(depth) + Core(m, depth) + (if last then [] else [44]) + [10]
  {
    TabsAre(depth);
    var name, value, comma := PrintString(m.name), Print(m.value, depth, true), if last then [] else [44];
    Assoc(Tabulators(depth), name, [58, 9]);
    Assoc(Tabulators(depth), name + [58, 9], value);
    Assoc(Tabulators(depth) + Core(m, depth), comma, [10]);
  }

  lemma MemberTurns(m: Member, last: bool, s: seq<byte>, i: nat, j: nat, open: seq<byte>)
    requires IsText(m.name) && Printable(m.value) && Spans(s, i, j, PrintMember(m, last, |open|, false))
    requires open != [] && open[|open| - 1] == 123
    ensures At(s, i) == 34
    ensures Turns(s, i, j, open, Core(m, |open|) + if last then [] else [44] + NewLine(|open|))
    decreases m, 1
  {
    var a, b, c, e := MemberLayout(m, last, s, i, j, |open|, false);
    var value := Print(m.value, |open|, true);
    SpanStarts(s, a, b, PrintString(m.name));
    StringTurns(s, a, b, m.name, open);
    ColonTurns(s, b, c, open);
    ValueTurns(m.value, s, c, e, open, value);
    EndTurns(last, s, e, j, open);
    TurnsBoth(s, a, b, c, open, PrintString(m.name), [58, 9]);
    TurnsBoth(s, a, c, e, open, PrintString(m.name) + [58, 9], value);
    TurnsBoth(s, a, e, j, open, Core(m, |open|), if last then [] else [44] + NewLine(|open|));
  }

  lemma ColonTurns(s: seq<byte>, b: nat, c: nat, open: seq<byte>)
    requires Spans(s, b, c, Colon(false))
    ensures Turns(s, b, c, open, [58, 9])
  {
    SpanStarts(s, b, c, Colon(false));
  }

  lemma EndTurns(last: bool, s: seq<byte>, e: nat, j: nat, open: seq<byte>)
    requires Spans(s, e, j, MemberEnd(last, false)) && open != [] && open[|open| - 1] == 123
    ensures Turns(s, e, j, open, if last then [] else [44] + NewLine(|open|))
  {
    if last {
      assert MemberEnd(last, false) == [];
      RunTurns(s, e, [], open);
    } else {
      assert MemberEnd(last, false) == [COMMA];
      CommaEnds(s, e, j, open);
    }
  }

  lemma CommaEnds(s: seq<byte>, e: nat, j: nat, open: seq<byte>)
    requires Spans(s, e, j, [COMMA]) && open != [] && open[|open| - 1] == 123
    ensures Turns(s, e, j, open, [44] + NewLine(|open|))
  {
    SpanStarts(s, e, j, [COMMA]);
  }

  lemma {:induction false} MembersTurn(members: seq<Member>, s: seq<byte>, i: nat, j: nat, open: seq<byte>,
                                       t: seq<byte>)
    requires members != [] && PrintableMembers(members) && Spans(s, i, j, PrintMembers(members, |open|, false))
    requires open != [] && open[|open| - 1] == 123 && At(s, j) == 125 && t == PrintMembers(members, |open|, true)
    ensures At(s, i) == 34
    ensures Tabulators(|open|) + Formatted(s, i, open) == t + Closing(s, j, open)
    decreases members, 2
  {
    var last, rest := members[1..] == [], PrintMembers(members[1..], |open|, true);
    var p := MembersLayout(members, s, i, j, |open|, false);
    MemberTurns(members[0], last, s, i, p, open);
    CorePrinted(members[0], last, |open|);
    if last {
      LastMember(Core(members[0], |open|), s, i, j, open, t);
    } else {
      MembersTurn(members[1..], s, p, j, open, rest);
      MoreMembers(Core(members[0], |open|), s, i, p, j, open, rest, t);
    }
  }

  lemma LastMember(core: seq<byte>, s: seq<byte>, i: nat, j: nat, open: seq<byte>, t: seq<byte>)
    requires open != [] && At(s, j) == 125 && Turns(s, i, j, open, core + [])
    requires t == Tabulators(|open|) + core + [] + [10] + []
    ensures Tabulators(|open|) + Formatted(s, i, open) == t + Closing(s, j, open)
  {
    var tabs, rest := Tabulators(|open|), Closing(s, j, open);
    assert Formatted(s, j, open) == [10] + rest;
    RegroupLast(tabs, core, [10], rest);
  }

  lemma RegroupLast(tabs: seq<byte>, core: seq<byte>, end: seq<byte>, rest: seq<byte>)
    ensures tabs + (core + [] + (end + rest)) == tabs + core + [] + end + [] + rest
  {
  }

  lemma MoreMembers(core: seq<byte>, s: seq<byte>, i: nat, p: nat, j: nat, open: seq<byte>, more: seq<byte>,
                    t: seq<byte>)
    requires open != [] && Turns(s, i, p, open, core + ([44] + NewLine(|open|)))
    requires Tabulators(|open|) + Formatted(s, p, open) == more + Closing(s, j, open)
    requires t == Tabulators(|open|) + core + [44] + [10] + more
    ensures Tabulators(|open|) + Formatted(s, i, open) == t + Closing(s, j, open)
  {
    var tabs := Tabulators(|open|);
    RegroupMore(tabs, core, [44], [10], Formatted(s, p, open));
    Assoc(tabs + core + [44] + [10], more, Closing(s, j, open));
  }

  lemma RegroupMore(tabs: seq<byte>, core: seq<byte>, comma: seq<byte>, end: seq<byte>, rest: seq<byte>)
    ensures tabs + (core + (comma + (end + tabs)) + rest) == tabs + core + comma + end + (tabs + rest)
  {
  }

  // formatting the unformatted print of a tree gives its formatted print
  lemma FormatIsPrint(v: Json)
    requires Printable(v)
    ensures Formatted(Print(v, 0, false), 0, []) == Print(v, 0, true)
  {
    var s := Print(v, 0, false);
    HasSlice(s, 0, s);
    ValueTurns(v, s, 0, |s|, [], Print(v, 0, true));
    assert Print(v, 0, true) + [] == Print(v, 0, true);
  }
}
