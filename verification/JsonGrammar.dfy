// The texts that stand for a tree, and that the parser takes those and no others.
module JsonGrammar {
  import opened Bytes
  import opened CString
  import opened Json
  import opened JsonNumbers
  import opened JsonNumerals
  import opened JsonParse
  import opened JsonStrings

  // ---- literals

  lemma Quoted(s: seq<byte>, i: nat, t: seq<byte>)
    requires HasAt(s, i, [QUOTE] + t + [QUOTE])
    ensures At(s, i) == QUOTE && HasAt(s, i + 1, t) && At(s, i + 1 + |t|) == QUOTE
  {
    HasSplit(s, i, [QUOTE] + t, [QUOTE]);
    HasSplit(s, i, [QUOTE], t);
    HasByte(s, i, [QUOTE], 0);
    HasByte(s, i + 1 + |t|, [QUOTE], 0);
  }

  // the literal from i to j, with whatever escapes, means the text
  ghost predicate Spells(units: seq<Unit>, text: seq<byte>, s: seq<byte>, i: nat, j: nat) {
    AllWellFormed(units) && Text(units) == text && Spans(s, i, j, [QUOTE] + Literal(units) + [QUOTE])
  }

  lemma StringParses(s: seq<byte>, i: nat, j: nat, text: seq<byte>, units: seq<Unit>)
    requires Spells(units, text, s, i, j)
    ensures At(s, i) == QUOTE && ParseString(s, i) == Ok(text, j)
  {
    UnitsParse(s, i, j, Literal(units), units);
    LiteralParses(s, i, text, j - 1);
  }

  lemma UnitsParse(s: seq<byte>, i: nat, j: nat, lit: seq<byte>, units: seq<Unit>)
    requires AllWellFormed(units) && lit == Literal(units) && Spans(s, i, j, [QUOTE] + lit + [QUOTE])
    ensures j > 0 && At(s, i) == At(s, j - 1) == QUOTE && Decode(s, i + 1) == (Text(units), j - 1)
  {
    Quoted(s, i, lit);
    Unescapes(s, i + 1, units, j - 1);
  }

  lemma LiteralParses(s: seq<byte>, i: nat, text: seq<byte>, end: nat)
    requires At(s, i) == At(s, end) == QUOTE && Decode(s, i + 1) == (text, end)
    ensures ParseString(s, i) == Ok(text, end + 1)
  {
  }

  // ---- white space

  predicate Blank(t: seq<byte>) {
    forall k :: 0 <= k < |t| ==> 1 <= t[k] <= SPACE
  }

  lemma {:induction false} SkipsBlank(s: seq<byte>, i: nat, j: nat, t: seq<byte>)
    requires Spans(s, i, j, t) && Blank(t)
    ensures Skip(s, i) == Skip(s, j)
    decreases |t|
  {
    if t != [] {
      assert t == [t[0]] + t[1..];
      HasSplit(s, i, [t[0]], t[1..]);
      HasByte(s, i, t, 0);
      SkipsBlank(s, i + 1, j, t[1..]);
    }
  }

  // ---- texts of a value: any blanks between the tokens; strings and numbers as section 7 and section 6 of RFC 8259
  // have them or, if loose, whatever the parser takes for them

  ghost predicate LaidString(text: seq<byte>, s: seq<byte>, i: nat, j: nat, loose: bool) {
    if loose then At(s, i) == QUOTE && ParseString(s, i) == Ok(text, j)
    else exists units :: Spells(units, text, s, i, j)
  }

  ghost predicate Denotes(n: Numeral, d: real, s: seq<byte>, i: nat, j: nat) {
    WellNumbered(n) && NumeralValue(n) == d && Spans(s, i, j, NumeralText(n)) && EndsNumber(At(s, j))
  }

  ghost predicate LaidNumber(d: real, s: seq<byte>, i: nat, j: nat, loose: bool) {
    if loose then (At(s, i) == MINUS || IsDigit(At(s, i))) && exists n :: Reads(n, d, s, i, j)
    else exists n :: Denotes(n, d, s, i, j)
  }

  ghost predicate Laid(v: Json, s: seq<byte>, i: nat, j: nat, loose: bool)
    decreases v, 1
  {
    match v
    case Null => Spans(s, i, j, [110, 117, 108, 108])
    case False => Spans(s, i, j, [102, 97, 108, 115, 101])
    case True => Spans(s, i, j, [116, 114, 117, 101])
    case Number(d) => LaidNumber(d, s, i, j, loose)
    case String(text) => LaidString(text, s, i, j, loose)
    case Array(items) => LaidArray(items, s, i, j, loose)
    case Object(members) => LaidObject(members, s, i, j, loose)
  }

  ghost predicate LaidArray(items: seq<Json>, s: seq<byte>, i: nat, j: nat, loose: bool)
    decreases items, 4
  {
    && At(s, i) == LBRACKET
    && if items == [] then LaidRest([], s, Skip(s, i + 1), j, loose) else LaidItems(items, s, i + 1, j, loose)
  }

  ghost predicate LaidObject(members: seq<Member>, s: seq<byte>, i: nat, j: nat, loose: bool)
    decreases members, 4
  {
    && At(s, i) == LBRACE
    && if members == [] then LaidMore([], s, Skip(s, i + 1), j, loose) else LaidMembers(members, s, i + 1, j, loose)
  }

  // one item or more, and the closing bracket
  ghost predicate LaidItems(items: seq<Json>, s: seq<byte>, i: nat, j: nat, loose: bool)
    requires items != []
    decreases items, 2
  {
    exists e :: Laid(items[0], s, Skip(s, i), e, loose) && LaidRest(items[1..], s, Skip(s, e), j, loose)
  }

  ghost predicate LaidRest(items: seq<Json>, s: seq<byte>, p: nat, j: nat, loose: bool)
    decreases items, 3
  {
    if items == [] then At(s, p) == RBRACKET && j == p + 1
    else At(s, p) == COMMA && LaidItems(items, s, p + 1, j, loose)
  }

  ghost predicate LaidMembers(members: seq<Member>, s: seq<byte>, i: nat, j: nat, loose: bool)
    requires members != []
    decreases members, 2
  {
    exists e :: LaidMember(members[0], s, Skip(s, i), e, loose) && LaidMore(members[1..], s, Skip(s, e), j, loose)
  }

  ghost predicate LaidMember(m: Member, s: seq<byte>, i: nat, j: nat, loose: bool)
    decreases m, 2
  {
    exists b, c :: LaidString(m.name, s, i, b, loose) && LaidColon(s, b, c) && Laid(m.value, s, c, j, loose)
  }

  predicate LaidColon(s: seq<byte>, b: nat, c: nat) {
    At(s, Skip(s, b)) == COLON && c == Skip(s, Skip(s, b) + 1)
  }

  ghost predicate LaidMore(members: seq<Member>, s: seq<byte>, p: nat, j: nat, loose: bool)
    decreases members, 3
  {
    if members == [] then At(s, p) == RBRACE && j == p + 1
    else At(s, p) == COMMA && LaidMembers(members, s, p + 1, j, loose)
  }

  lemma StartsWithFirst(s: seq<byte>, i: nat, t: seq<byte>)
    requires t != []
    ensures HasAt(s, i, t) ==> At(s, i) == t[0]
  {
    if HasAt(s, i, t) {
      HasByte(s, i, t, 0);
    }
  }

  predicate NoKeyword(s: seq<byte>, i: nat) {
    !HasAt(s, i, NULL_TEXT) && !HasAt(s, i, FALSE_TEXT) && !HasAt(s, i, TRUE_TEXT)
  }

  lemma OtherStart(s: seq<byte>, i: nat)
    ensures At(s, i) !in [NULL_TEXT[0], FALSE_TEXT[0], TRUE_TEXT[0]] ==> NoKeyword(s, i)
    ensures At(s, i) == FALSE_TEXT[0] ==> !HasAt(s, i, NULL_TEXT)
    ensures At(s, i) == TRUE_TEXT[0] ==> !HasAt(s, i, NULL_TEXT) && !HasAt(s, i, FALSE_TEXT)
  {
    StartsWithFirst(s, i, NULL_TEXT);
    StartsWithFirst(s, i, FALSE_TEXT);
    StartsWithFirst(s, i, TRUE_TEXT);
  }

  // ---- every such text is parsed to the value

  // no value starts like the end of an array or an object
  lemma LaidStarts(v: Json, s: seq<byte>, i: nat, j: nat, loose: bool)
    requires Laid(v, s, i, j, loose)
    ensures At(s, i) !in [RBRACKET, RBRACE]
  {
    match v
    case Null => HasByte(s, i, NULL_TEXT, 0);
    case False => HasByte(s, i, FALSE_TEXT, 0);
    case True => HasByte(s, i, TRUE_TEXT, 0);
    case Number(d) => LaidNumberParses(d, s, i, j, loose);
    case String(text) => LaidStringParses(text, s, i, j, loose);
    case Array(items) =>
    case Object(members) =>
  }

  lemma KeywordParses(v: Json, s: seq<byte>, i: nat, j: nat, loose: bool)
    requires (v.Null? || v.False? || v.True?) && Laid(v, s, i, j, loose)
    ensures ParseValue(s, i) == Ok(v, j)
  {
    OtherStart(s, i);
    match v
    case Null =>
    case False => HasByte(s, i, FALSE_TEXT, 0);
    case True => HasByte(s, i, TRUE_TEXT, 0);
  }

  lemma NumberIs(d: real, s: seq<byte>, i: nat, j: nat, loose: bool)
    requires LaidNumber(d, s, i, j, loose)
    ensures ParseValue(s, i) == Ok(Number(d), j)
  {
    LaidNumberParses(d, s, i, j, loose);
    NumberStarts(s, i);
  }

  lemma NumberStarts(s: seq<byte>, i: nat)
    requires At(s, i) == MINUS || IsDigit(At(s, i))
    ensures ParseValue(s, i) == Ok(Number(ParseNumber(s, i).0), ParseNumber(s, i).1)
  {
    OtherStart(s, i);
  }

  lemma StringIs(text: seq<byte>, s: seq<byte>, i: nat, j: nat, loose: bool)
    requires LaidString(text, s, i, j, loose)
    ensures ParseValue(s, i) == Ok(String(text), j)
  {
    LaidStringParses(text, s, i, j, loose);
    OtherStart(s, i);
  }

  lemma {:induction false} LaidParses(v: Json, s: seq<byte>, i: nat, j: nat, loose: bool)
    requires Laid(v, s, i, j, loose)
    ensures ParseValue(s, i) == Ok(v, j)
    decreases v, 1
  {
    match v
    case Number(d) => NumberIs(d, s, i, j, loose);
    case String(text) => StringIs(text, s, i, j, loose);
    case Array(items) =>
      LaidArrayParses(items, s, i, j, loose);
      OtherStart(s, i);
    case Object(members) =>
      LaidObjectParses(members, s, i, j, loose);
      OtherStart(s, i);
    case _ => KeywordParses(v, s, i, j, loose);
  }

  lemma LaidStringParses(text: seq<byte>, s: seq<byte>, i: nat, j: nat, loose: bool)
    requires LaidString(text, s, i, j, loose)
    ensures At(s, i) == QUOTE && ParseString(s, i) == Ok(text, j)
  {
    if !loose {
      var units :| Spells(units, text, s, i, j);
      StringParses(s, i, j, text, units);
    }
  }

  lemma LaidNumberParses(d: real, s: seq<byte>, i: nat, j: nat, loose: bool)
    requires LaidNumber(d, s, i, j, loose)
    ensures At(s, i) == MINUS || IsDigit(At(s, i))
    ensures ParseNumber(s, i) == (d, j)
  {
    if loose {
      NumberExactly(s, i, d, j);
    } else {
      var n :| Denotes(n, d, s, i, j);
      NumeralParses(s, i, j, n);
    }
  }

  lemma LaidArrayParses(items: seq<Json>, s: seq<byte>, i: nat, j: nat, loose: bool)
    requires LaidArray(items, s, i, j, loose)
    ensures At(s, i) == LBRACKET && ParseArray(s, i) == Ok(Array(items), j)
    decreases items, 4
  {
    if items != [] {
      assert Skip(s, Skip(s, i + 1)) == Skip(s, i + 1);
      LaidItemsParse(items, s, i + 1, j, loose);
    }
  }

  lemma {:induction false} LaidItemsParse(items: seq<Json>, s: seq<byte>, i: nat, j: nat, loose: bool)
    requires items != [] && LaidItems(items, s, i, j, loose)
    ensures At(s, Skip(s, i)) != RBRACKET && ParseItems(s, i) == Ok(items, j)
    decreases items, 2
  {
    var e :| Laid(items[0], s, Skip(s, i), e, loose) && LaidRest(items[1..], s, Skip(s, e), j, loose);
    LaidStarts(items[0], s, Skip(s, i), e, loose);
    LaidParses(items[0], s, Skip(s, i), e, loose);
    if items[1..] != [] { LaidItemsParse(items[1..], s, Skip(s, e) + 1, j, loose); }
    assert items == [items[0]] + items[1..];
  }

  lemma LaidObjectParses(members: seq<Member>, s: seq<byte>, i: nat, j: nat, loose: bool)
    requires LaidObject(members, s, i, j, loose)
    ensures At(s, i) == LBRACE && ParseObject(s, i) == Ok(Object(members), j)
    decreases members, 4
  {
    if members != [] {
      MembersBehindBlanks(s, i + 1);
      LaidMembersParse(members, s, i + 1, j, loose);
    }
  }

  lemma MembersBehindBlanks(s: seq<byte>, i: nat)
    ensures ParseMembers(s, Skip(s, i)) == ParseMembers(s, i)
  {
    assert Skip(s, Skip(s, i)) == Skip(s, i);
    assert ParseMember(s, Skip(s, i)) == ParseMember(s, i);
  }

  lemma {:induction false} LaidMembersParse(members: seq<Member>, s: seq<byte>, i: nat, j: nat, loose: bool)
    requires members != [] && LaidMembers(members, s, i, j, loose)
    ensures At(s, Skip(s, i)) == QUOTE && ParseMembers(s, i) == Ok(members, j)
    decreases members, 2
  {
    var e :| LaidMember(members[0], s, Skip(s, i), e, loose) && LaidMore(members[1..], s, Skip(s, e), j, loose);
    LaidMemberParses(members[0], s, i, e, loose);
    LaidMoreParse(members[1..], s, Skip(s, e), j, loose);
    MembersJoin(s, i, members, members[0], e, members[1..], j);
  }

  lemma LaidMoreParse(members: seq<Member>, s: seq<byte>, p: nat, j: nat, loose: bool)
    requires LaidMore(members, s, p, j, loose)
    ensures MembersAfter(s, p) == Ok(members, j)
    decreases members, 3
  {
    if members != [] { LaidMembersParse(members, s, p + 1, j, loose); }
  }

  lemma MembersJoin(s: seq<byte>, i: nat, members: seq<Member>, m: Member, end: nat, rest: seq<Member>, stop: nat)
    requires members != [] && m == members[0] && rest == members[1..]
    requires ParseMember(s, i) == Ok(m, end) && MembersAfter(s, Skip(s, end)) == Ok(rest, stop)
    ensures ParseMembers(s, i) == Ok(members, stop)
  {
    assert [m] + rest == members;
  }

  lemma LaidMemberParses(m: Member, s: seq<byte>, i: nat, j: nat, loose: bool)
    requires LaidMember(m, s, Skip(s, i), j, loose)
    ensures At(s, Skip(s, i)) == QUOTE && ParseMember(s, i) == Ok(m, j)
    decreases m, 3
  {
    var a := Skip(s, i);
    var b, c :| LaidString(m.name, s, a, b, loose) && LaidColon(s, b, c) && Laid(m.value, s, c, j, loose);
    LaidStringParses(m.name, s, a, b, loose);
    LaidParses(m.value, s, c, j, loose);
    MemberIs(s, i, m.name, b, c, m.value, j);
  }

  lemma MemberIs(s: seq<byte>, i: nat, name: seq<byte>, b: nat, c: nat, value: Json, end: nat)
    requires ParseString(s, Skip(s, i)) == Ok(name, b) && LaidColon(s, b, c) && ParseValue(s, c) == Ok(value, end)
    ensures ParseMember(s, i) == Ok(Member(name, value), end)
  {
  }

  // a whole text, with blanks in front of the value and behind it, is parsed to its end
  lemma LaidTextParses(v: Json, t: seq<byte>, j: nat, loose: bool)
    requires Laid(v, t, Skip(t, 0), j, loose)
    ensures ParseText(t, false) == Ok(v, j)
    ensures At(t, Skip(t, j)) == 0 ==> ParseText(t, true) == Ok(v, Skip(t, j))
  {
    LaidParses(v, t, Skip(t, 0), j, loose);
  }

  // ---- and what is parsed is such a text

  lemma {:induction false} ParsedIsLaid(v: Json, s: seq<byte>, i: nat, j: nat)
    requires ParseValue(s, i) == Ok(v, j)
    ensures Laid(v, s, i, j, true)
    decreases |s| - i, 2
  {
    if v.Array? {
      ArrayStarts(s, i, v.items, j);
      ParsedArrayIsLaid(v.items, s, i, j);
    } else if v.Object? {
      ObjectStarts(s, i, v.members, j);
      ParsedObjectIsLaid(v.members, s, i, j);
    } else if v.Number? {
      NumberStart(s, i, v.d, j);
      NumberExactly(s, i, v.d, j);
    }
  }

  lemma NumberStart(s: seq<byte>, i: nat, d: real, j: nat)
    requires ParseValue(s, i) == Ok(Number(d), j)
    ensures (At(s, i) == MINUS || IsDigit(At(s, i))) && ParseNumber(s, i) == (d, j)
  {
  }

  lemma ArrayStarts(s: seq<byte>, i: nat, items: seq<Json>, j: nat)
    requires ParseValue(s, i) == Ok(Array(items), j)
    ensures At(s, i) == LBRACKET && ParseArray(s, i) == Ok(Array(items), j)
  {
  }

  lemma ObjectStarts(s: seq<byte>, i: nat, members: seq<Member>, j: nat)
    requires ParseValue(s, i) == Ok(Object(members), j)
    ensures At(s, i) == LBRACE && ParseObject(s, i) == Ok(Object(members), j)
  {
  }

  lemma ParsedArrayIsLaid(items: seq<Json>, s: seq<byte>, i: nat, j: nat)
    requires At(s, i) == LBRACKET && ParseArray(s, i) == Ok(Array(items), j)
    ensures LaidArray(items, s, i, j, true)
    decreases |s| - i, 1
  {
    var p := Skip(s, i + 1);
    if At(s, p) != RBRACKET { ParsedItemsAreLaid(items, s, i + 1, p, j); }
  }

  lemma {:induction false} ParsedItemsAreLaid(items: seq<Json>, s: seq<byte>, i0: nat, i: nat, j: nat)
    requires Skip(s, i0) == Skip(s, i) && ParseItems(s, i) == Ok(items, j)
    ensures items != [] && LaidItems(items, s, i0, j, true)
    decreases |s| - i, 3
  {
    var p := Skip(s, i);
    var item, e := ParseValue(s, p).value, ParseValue(s, p).end;
    var rest := ItemsAfter(s, Skip(s, e)).value;
    assert items == [item] + rest;
    ParsedIsLaid(item, s, p, e);
    ParsedRestIsLaid(rest, s, Skip(s, e), j);
    assert items[0] == item && items[1..] == rest;
    assert Laid(items[0], s, Skip(s, i0), e, true) && LaidRest(items[1..], s, Skip(s, e), j, true);
  }

  lemma ParsedRestIsLaid(rest: seq<Json>, s: seq<byte>, p: nat, j: nat)
    requires ItemsAfter(s, p) == Ok(rest, j)
    ensures LaidRest(rest, s, p, j, true)
    decreases |s| - p, 4
  {
    if At(s, p) == COMMA { ParsedItemsAreLaid(rest, s, p + 1, p + 1, j); }
  }

  lemma ParsedObjectIsLaid(members: seq<Member>, s: seq<byte>, i: nat, j: nat)
    requires At(s, i) == LBRACE && ParseObject(s, i) == Ok(Object(members), j)
    ensures LaidObject(members, s, i, j, true)
    decreases |s| - i, 1
  {
    var p := Skip(s, i + 1);
    if At(s, p) != RBRACE { ParsedMembersAreLaid(members, s, i + 1, p, j); }
  }

  lemma {:induction false} ParsedMembersAreLaid(members: seq<Member>, s: seq<byte>, i0: nat, i: nat, j: nat)
    requires Skip(s, i0) == Skip(s, i) && ParseMembers(s, i) == Ok(members, j)
    ensures members != [] && LaidMembers(members, s, i0, j, true)
    decreases |s| - i, 4
  {
    var m, e := ParseMember(s, i).value, ParseMember(s, i).end;
    var rest := MembersAfter(s, Skip(s, e)).value;
    assert members == [m] + rest;
    ParsedMemberIsLaid(m, s, i, e);
    ParsedMoreIsLaid(rest, s, Skip(s, e), j);
    assert members[0] == m && members[1..] == rest;
    assert LaidMember(members[0], s, Skip(s, i0), e, true) && LaidMore(members[1..], s, Skip(s, e), j, true);
  }

  lemma ParsedMemberIsLaid(m: Member, s: seq<byte>, i: nat, j: nat)
    requires ParseMember(s, i) == Ok(m, j)
    ensures LaidMember(m, s, Skip(s, i), j, true) && i < j
    decreases |s| - i, 3
  {
    var b, c := MemberParts(m, s, i, j);
    ParsedIsLaid(m.value, s, c, j);
    assert LaidString(m.name, s, Skip(s, i), b, true) && LaidColon(s, b, c) && Laid(m.value, s, c, j, true);
  }

  lemma MemberParts(m: Member, s: seq<byte>, i: nat, j: nat) returns (b: nat, c: nat)
    requires ParseMember(s, i) == Ok(m, j)
    ensures LaidString(m.name, s, Skip(s, i), b, true) && LaidColon(s, b, c) && ParseValue(s, c) == Ok(m.value, j)
    ensures i < b < c < j
  {
    b := ParseString(s, Skip(s, i)).end;
    c := Skip(s, Skip(s, b) + 1);
  }

  lemma ParsedMoreIsLaid(members: seq<Member>, s: seq<byte>, p: nat, j: nat)
    requires MembersAfter(s, p) == Ok(members, j)
    ensures LaidMore(members, s, p, j, true)
    decreases |s| - p, 5
  {
    if At(s, p) == COMMA { ParsedMembersAreLaid(members, s, p + 1, p + 1, j); }
  }

  // the parser takes the texts laid out so, with that value and that end, and no others
  lemma ParsesExactlyLaid(v: Json, s: seq<byte>, i: nat, j: nat)
    ensures ParseValue(s, i) == Ok(v, j) <==> Laid(v, s, i, j, true)
  {
    if ParseValue(s, i) == Ok(v, j) { ParsedIsLaid(v, s, i, j); }
    if Laid(v, s, i, j, true) { LaidParses(v, s, i, j, true); }
  }
}
