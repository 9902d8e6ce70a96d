// Minifying a text keeps what it means.
module JsonMeaning {
  import opened Bytes
  import opened CString
  import opened Json
  import opened JsonCompact
  import opened JsonGrammar
  import opened JsonMinify
  import opened JsonNumerals
  import opened JsonParse
  import opened JsonStrings

  // ---- what goes and what stays

  // a line comment goes, up to the first line feed or the end
  lemma LineCommentGoes(s: seq<byte>, i: nat, j: nat)
    requires At(s, i) == At(s, i + 1) == 47 && i <= j && At(s, j) in [10, 0]
    requires forall k :: i <= k < j ==> At(s, k) !in [10, 0]
    ensures Closed(s, j) ==> Closed(s, i) && Minified(s, i) == Minified(s, j)
  {
    LineStopIsFirst(s, i);
    assert At(s, |s|) == 0 && LineStop(s, i) == j <= |s|;
    assert Closed(s, j) ==> [] + Minified(s, j) == Minified(s, j);
  }

  // a block comment goes, up to the first star before a slash; without one nothing is closed
  lemma BlockCommentGoes(s: seq<byte>, i: nat, j: nat)
    requires At(s, i) == 47 && At(s, i + 1) == 42 && i <= j && (At(s, j) == 0 || (At(s, j) == 42 && At(s, j + 1) == 47))
    requires forall k :: i <= k < j ==> At(s, k) != 0 && !(At(s, k) == 42 && At(s, k + 1) == 47)
    ensures At(s, j) == 0 && 0 !in s ==> !Closed(s, i)
    ensures At(s, j) == 42 && Closed(s, j + 2) ==> Closed(s, i) && Minified(s, i) == Minified(s, j + 2)
  {
    BlockStopIsFirst(s, i);
    assert BlockStop(s, i) == j && TokenEnd(s, i) == j + 2;
    assert 0 !in s && At(s, j) == 0 ==> j >= |s|;
    assert Closed(s, j + 2) ==> [] + Minified(s, j + 2) == Minified(s, j + 2);
  }

  lemma BlankGoes(s: seq<byte>, i: nat)
    requires At(s, i) in [9, 10, 13, 32]
    ensures Closed(s, i + 1) ==> Closed(s, i) && Minified(s, i) == Minified(s, i + 1)
  {
    assert Closed(s, i + 1) ==> [] + Minified(s, i + 1) == Minified(s, i + 1);
  }

  // any other byte stays, if no literal begins with it
  lemma OtherByteStays(s: seq<byte>, i: nat)
    requires At(s, i) !in [0, 9, 10, 13, 32, 34] && !(At(s, i) == 47 && At(s, i + 1) in [47, 42])
    ensures Closed(s, i + 1) ==> Closed(s, i) && Minified(s, i) == [At(s, i)] + Minified(s, i + 1)
  {
    assert s[i..i + 1] == [At(s, i)];
  }

  // ---- places of a text, and where minifying it has come to

  ghost predicate Reached(s: seq<byte>, i: nat, m: seq<byte>, k: nat) {
    Closed(s, i) && k <= |m| && m[k..] == Minified(s, i)
  }

  // from i to j in the text, from k to l in what is left of it
  ghost predicate Passes(s: seq<byte>, i: nat, j: nat, m: seq<byte>, k: nat, l: nat) {
    (Closed(s, j) ==> Closed(s, i)) && (Reached(s, i, m, k) ==> Reached(s, j, m, l))
  }

  // a byte that stands for itself
  lemma BytePasses(s: seq<byte>, i: nat, m: seq<byte>, k: nat)
    requires Stays(At(s, i))
    ensures Passes(s, i, i + 1, m, k, k + 1)
    ensures Reached(s, i, m, k) ==> At(m, k) == At(s, i)
  {
    OtherByteStays(s, i);
    if Reached(s, i, m, k) {
      assert Closed(s, i + 1);
      assert m[k..] == [At(s, i)] + Minified(s, i + 1);
      assert m[k] == m[k..][0] && m[k + 1..] == m[k..][1..];
    }
  }

  lemma {:induction false} RunPasses(s: seq<byte>, i: nat, t: seq<byte>, m: seq<byte>, k: nat)
    requires HasAt(s, i, t) && forall x :: 0 <= x < |t| ==> Stays(t[x])
    ensures Passes(s, i, i + |t|, m, k, k + |t|)
    ensures Reached(s, i, m, k) ==> HasAt(m, k, t)
    decreases |t|
  {
    if t != [] {
      HasByte(s, i, t, 0);
      BytePasses(s, i, m, k);
      RunPasses(s, i + 1, t[1..], m, k + 1);
    }
  }

  lemma LiteralPasses(s: seq<byte>, i: nat, j: nat, units: seq<Unit>, m: seq<byte>, k: nat) returns (l: nat)
    requires AllWellFormed(units) && Spans(s, i, j, [QUOTE] + Literal(units) + [QUOTE])
    ensures Passes(s, i, j, m, k, l)
    ensures Reached(s, i, m, k) ==> Spans(m, k, l, [QUOTE] + Literal(units) + [QUOTE])
  {
    UnitsStay(s, i, j, units);
    l := LeftPasses(s, i, j, [QUOTE] + Literal(units) + [QUOTE], m, k);
  }

  lemma LeftPasses(s: seq<byte>, i: nat, j: nat, t: seq<byte>, m: seq<byte>, k: nat) returns (l: nat)
    requires Becomes(s, i, j, t) && (Closed(s, i) ==> Closed(s, j))
    ensures Passes(s, i, j, m, k, l)
    ensures Reached(s, i, m, k) ==> Spans(m, k, l, t)
  {
    l := k + |t|;
    if Reached(s, i, m, k) {
      assert m[k..] == t + Minified(s, j);
      assert m[k..k + |t|] == m[k..][..|t|] && m[l..] == m[k..][|t|..];
      HasSlice(m, k, t);
    }
  }

  // ---- blanks, and what stands behind them

  // the parser skips the blanks that are left
  lemma {:induction false} SkipPasses(s: seq<byte>, i: nat, m: seq<byte>, k: nat) returns (l: nat)
    ensures Passes(s, i, Skip(s, i), m, k, l)
    ensures Reached(s, i, m, k) ==> Skip(m, k) == Skip(m, l) && (k < l ==> 1 <= At(m, k) < SPACE)
    decreases |s| - i
  {
    if At(s, i) in [9, 10, 13, 32] {
      BlankGoes(s, i);
      assert Closed(s, i) ==> Closed(s, i + 1);
      l := SkipPasses(s, i + 1, m, k);
    } else if 1 <= At(s, i) <= SPACE {
      BytePasses(s, i, m, k);
      l := SkipPasses(s, i + 1, m, k + 1);
    } else {
      l := k;
    }
  }

  // what begins a token is there in what is left
  predicate Leads(c: byte) {
    c != 47 && (c == 0 || c > SPACE)
  }

  lemma LeadIsFound(s: seq<byte>, i: nat, m: seq<byte>, k: nat)
    requires Leads(At(s, i)) && Reached(s, i, m, k)
    ensures At(m, k) == At(s, i) && Skip(m, k) == k
  {
    if At(s, i) != 0 {
      assert TokenEnd(s, i) <= |s| && i < TokenEnd(s, i) && Kept(s, i);
      assert Minified(s, i)[0] == s[i] == m[k..][0];
    } else {
      assert m[k..] == [];
    }
  }

  // blanks and a byte behind them, for which minifying has left the byte and perhaps blanks
  lemma LeadPasses(s: seq<byte>, i: nat, m: seq<byte>, k: nat) returns (l: nat)
    requires Leads(At(s, Skip(s, i)))
    ensures Passes(s, i, Skip(s, i), m, k, l)
    ensures Reached(s, i, m, k) ==> Skip(m, k) == l && At(m, l) == At(s, Skip(s, i))
    ensures Reached(s, i, m, k) ==> (k < l && 1 <= At(m, k) < SPACE) || (k == l && At(m, k) == At(s, Skip(s, i)))
  {
    l := SkipPasses(s, i, m, k);
    if Reached(s, i, m, k) { LeadIsFound(s, Skip(s, i), m, l); }
  }

  // blanks and a byte that stands for itself
  lemma MarkPasses(s: seq<byte>, i: nat, m: seq<byte>, k: nat) returns (l: nat)
    requires At(s, Skip(s, i)) in [COMMA, COLON, LBRACKET, RBRACKET, LBRACE, RBRACE]
    ensures Passes(s, i, Skip(s, i) + 1, m, k, l + 1)
    ensures Reached(s, i, m, k) ==> Skip(m, k) == l && At(m, l) == At(s, Skip(s, i))
  {
    l := LeadPasses(s, i, m, k);
    BytePasses(s, Skip(s, i), m, l);
  }

  // ---- values

  // what may stand behind a value
  predicate Ends(c: byte) {
    c in [0, COMMA, RBRACKET, RBRACE]
  }

  lemma PassesBoth(s: seq<byte>, i: nat, p: nat, j: nat, m: seq<byte>, k: nat, q: nat, l: nat)
    requires Passes(s, i, p, m, k, q) && Passes(s, p, j, m, q, l)
    ensures Passes(s, i, j, m, k, l)
  {
  }

  lemma StringPasses(text: seq<byte>, s: seq<byte>, i: nat, j: nat, m: seq<byte>, k: nat) returns (l: nat)
    requires LaidString(text, s, i, j, false)
    ensures Passes(s, i, j, m, k, l) && (Reached(s, i, m, k) ==> LaidString(text, m, k, l, false))
  {
    var units :| Spells(units, text, s, i, j);
    l := LiteralPasses(s, i, j, units, m, k);
    assert Reached(s, i, m, k) ==> Spells(units, text, m, k, l);
  }

  lemma NumeralStays(n: Numeral)
    requires WellNumbered(n)
    ensures forall x :: 0 <= x < |NumeralText(n)| ==> Stays(NumeralText(n)[x])
  {
    PowerStays(n.power);
  }

  lemma PowerStays(p: Power)
    requires ReadablePower(p)
    ensures forall x :: 0 <= x < |PowerText(p)| ==> Stays(PowerText(p)[x])
  {
  }

  lemma NumberPasses(d: real, s: seq<byte>, i: nat, j: nat, m: seq<byte>, k: nat) returns (l: nat)
    requires LaidNumber(d, s, i, j, false) && Ends(At(s, Skip(s, j)))
    ensures Passes(s, i, j, m, k, l) && (Reached(s, i, m, k) ==> LaidNumber(d, m, k, l, false))
  {
    var n :| Denotes(n, d, s, i, j);
    NumeralStays(n);
    l := TextPasses(NumeralText(n), s, i, j, m, k);
    if Reached(s, i, m, k) { DenotesThere(n, d, s, i, j, m, k, l); }
  }

  lemma TextPasses(t: seq<byte>, s: seq<byte>, i: nat, j: nat, m: seq<byte>, k: nat) returns (l: nat)
    requires Spans(s, i, j, t) && (forall x :: 0 <= x < |t| ==> Stays(t[x])) && Ends(At(s, Skip(s, j)))
    ensures Passes(s, i, j, m, k, l)
    ensures Reached(s, i, m, k) ==> Spans(m, k, l, t) && EndsNumber(At(m, l))
  {
    l := k + |t|;
    RunPasses(s, i, t, m, k);
    EndIsFound(s, j, m, l);
  }

  lemma DenotesThere(n: Numeral, d: real, s: seq<byte>, i: nat, j: nat, m: seq<byte>, k: nat, l: nat)
    requires Denotes(n, d, s, i, j) && Spans(m, k, l, NumeralText(n)) && EndsNumber(At(m, l))
    ensures LaidNumber(d, m, k, l, false)
  {
    assert Denotes(n, d, m, k, l);
  }

  lemma EndIsFound(s: seq<byte>, j: nat, m: seq<byte>, l: nat)
    requires Ends(At(s, Skip(s, j)))
    ensures Reached(s, j, m, l) ==> EndsNumber(At(m, l))
  {
    var _ := LeadPasses(s, j, m, l);
  }

  // a value begins a token
  lemma LaidLeads(v: Json, s: seq<byte>, i: nat, j: nat)
    requires Laid(v, s, i, j, false)
    ensures Leads(At(s, i))
  {
    match v
    case Null => HasByte(s, i, NULL_TEXT, 0);
    case False => HasByte(s, i, FALSE_TEXT, 0);
    case True => HasByte(s, i, TRUE_TEXT, 0);
    case Number(d) => LaidNumberParses(d, s, i, j, false);
    case String(text) => LaidStringParses(text, s, i, j, false);
    case Array(items) =>
    case Object(members) =>
  }

  lemma KeywordPasses(v: Json, s: seq<byte>, i: nat, j: nat, m: seq<byte>, k: nat) returns (l: nat)
    requires (v.Null? || v.False? || v.True?) && Laid(v, s, i, j, false)
    ensures Passes(s, i, j, m, k, l) && (Reached(s, i, m, k) ==> Laid(v, m, k, l, false))
  {
    var t := if v.Null? then NULL_TEXT else if v.False? then FALSE_TEXT else TRUE_TEXT;
    l := k + |t|;
    RunPasses(s, i, t, m, k);
  }

  lemma {:induction false} ValuePasses(v: Json, s: seq<byte>, i: nat, j: nat, m: seq<byte>, k: nat) returns (l: nat)
    requires Laid(v, s, i, j, false) && Ends(At(s, Skip(s, j)))
    ensures Passes(s, i, j, m, k, l) && (Reached(s, i, m, k) ==> Laid(v, m, k, l, false))
    decreases v, 1
  {
    match v
    case Number(d) => l := NumberPasses(d, s, i, j, m, k);
    case String(text) => l := StringPasses(text, s, i, j, m, k);
    case Array(items) => l := ArrayPasses(items, s, i, j, m, k);
    case Object(members) => l := ObjectPasses(members, s, i, j, m, k);
    case _ => l := KeywordPasses(v, s, i, j, m, k);
  }

  lemma ArrayPasses(items: seq<Json>, s: seq<byte>, i: nat, j: nat, m: seq<byte>, k: nat) returns (l: nat)
    requires LaidArray(items, s, i, j, false)
    ensures Passes(s, i, j, m, k, l) && (Reached(s, i, m, k) ==> LaidArray(items, m, k, l, false))
    decreases items, 4
  {
    BytePasses(s, i, m, k);
    if items == [] {
      l := MarkPasses(s, i + 1, m, k + 1);
      l := l + 1;
    } else {
      l := ItemsPass(items, s, i + 1, j, m, k + 1);
    }
  }

  lemma {:induction false} ItemsPass(items: seq<Json>, s: seq<byte>, i: nat, j: nat, m: seq<byte>, k: nat)
    returns (l: nat)
    requires items != [] && LaidItems(items, s, i, j, false)
    ensures Passes(s, i, j, m, k, l) && (Reached(s, i, m, k) ==> LaidItems(items, m, k, l, false))
    decreases items, 2
  {
    var e :| Laid(items[0], s, Skip(s, i), e, false) && LaidRest(items[1..], s, Skip(s, e), j, false);
    LaidLeads(items[0], s, Skip(s, i), e);
    var k1 := LeadPasses(s, i, m, k);
    var k2 := ValuePasses(items[0], s, Skip(s, i), e, m, k1);
    l := RestPasses(items, items[1..], s, e, j, m, k2);
    PassesBoth(s, i, Skip(s, i), e, m, k, k1, k2);
    PassesBoth(s, i, e, j, m, k, k2, l);
    if Reached(s, i, m, k) {
      assert Laid(items[0], m, Skip(m, k), k2, false) && LaidRest(items[1..], m, Skip(m, k2), l, false);
    }
  }

  lemma RestPasses(items: seq<Json>, rest: seq<Json>, s: seq<byte>, e: nat, j: nat, m: seq<byte>, k: nat)
    returns (l: nat)
    requires items != [] && rest == items[1..] && LaidRest(rest, s, Skip(s, e), j, false)
    ensures Passes(s, e, j, m, k, l) && (Reached(s, e, m, k) ==> LaidRest(rest, m, Skip(m, k), l, false))
    decreases items, 1
  {
    var q := MarkPasses(s, e, m, k);
    l := q + 1;
    if rest != [] {
      l := ItemsPass(rest, s, Skip(s, e) + 1, j, m, q + 1);
      PassesBoth(s, e, Skip(s, e) + 1, j, m, k, q + 1, l);
    }
  }

  lemma ObjectPasses(members: seq<Member>, s: seq<byte>, i: nat, j: nat, m: seq<byte>, k: nat) returns (l: nat)
    requires LaidObject(members, s, i, j, false)
    ensures Passes(s, i, j, m, k, l) && (Reached(s, i, m, k) ==> LaidObject(members, m, k, l, false))
    decreases members, 4
  {
    BytePasses(s, i, m, k);
    if members == [] {
      l := MarkPasses(s, i + 1, m, k + 1);
      l := l + 1;
    } else {
      l := MembersPass(members, s, i + 1, j, m, k + 1);
    }
  }

  lemma {:induction false} MembersPass(members: seq<Member>, s: seq<byte>, i: nat, j: nat, m: seq<byte>, k: nat)
    returns (l: nat)
    requires members != [] && LaidMembers(members, s, i, j, false)
    ensures Passes(s, i, j, m, k, l) && (Reached(s, i, m, k) ==> LaidMembers(members, m, k, l, false))
    decreases members, 2
  {
    var e :| LaidMember(members[0], s, Skip(s, i), e, false) && LaidMore(members[1..], s, Skip(s, e), j, false);
    var k1 := MemberPasses(members[0], s, i, e, m, k);
    l := MorePasses(members, members[1..], s, e, j, m, k1);
    PassesBoth(s, i, e, j, m, k, k1, l);
    if Reached(s, i, m, k) {
      assert LaidMember(members[0], m, Skip(m, k), k1, false) && LaidMore(members[1..], m, Skip(m, k1), l, false);
    }
  }

  lemma MorePasses(members: seq<Member>, rest: seq<Member>, s: seq<byte>, e: nat, j: nat, m: seq<byte>, k: nat)
    returns (l: nat)
    requires members != [] && rest == members[1..] && LaidMore(rest, s, Skip(s, e), j, false)
    ensures Passes(s, e, j, m, k, l) && (Reached(s, e, m, k) ==> LaidMore(rest, m, Skip(m, k), l, false))
    decreases members, 1
  {
    var q := MarkPasses(s, e, m, k);
    if rest == [] {
      l := q + 1;
    } else {
      l := MembersBehind(members, rest, s, e, j, m, k, q);
    }
  }

  lemma MembersBehind(members: seq<Member>, rest: seq<Member>, s: seq<byte>, e: nat, j: nat, m: seq<byte>, k: nat,
                      q: nat)
    returns (l: nat)
    requires members != [] && rest == members[1..] && rest != [] && LaidMembers(rest, s, Skip(s, e) + 1, j, false)
    requires Passes(s, e, Skip(s, e) + 1, m, k, q + 1)
    ensures Passes(s, e, j, m, k, l) && (Reached(s, e, m, k) ==> LaidMembers(rest, m, q + 1, l, false))
    decreases members, 0
  {
    l := MembersPass(rest, s, Skip(s, e) + 1, j, m, q + 1);
    PassesBoth(s, e, Skip(s, e) + 1, j, m, k, q + 1, l);
  }

  // blanks and a member
  lemma MemberPasses(x: Member, s: seq<byte>, i: nat, j: nat, m: seq<byte>, k: nat) returns (l: nat)
    requires LaidMember(x, s, Skip(s, i), j, false) && Ends(At(s, Skip(s, j)))
    ensures Passes(s, i, j, m, k, l) && (Reached(s, i, m, k) ==> LaidMember(x, m, Skip(m, k), l, false))
    decreases x, 2
  {
    var a := Skip(s, i);
    var b, c :| LaidString(x.name, s, a, b, false) && LaidColon(s, b, c) && Laid(x.value, s, c, j, false);
    LaidStringParses(x.name, s, a, b, false);
    var k1 := LeadPasses(s, i, m, k);
    var k2 := StringPasses(x.name, s, a, b, m, k1);
    LaidLeads(x.value, s, c, j);
    var k3 := ColonPasses(s, b, c, m, k2);
    l := ValuePasses(x.value, s, c, j, m, k3);
    PassesBoth(s, i, a, b, m, k, k1, k2);
    PassesBoth(s, i, b, c, m, k, k2, k3);
    PassesBoth(s, i, c, j, m, k, k3, l);
    if Reached(s, i, m, k) {
      assert LaidString(x.name, m, Skip(m, k), k2, false) && LaidColon(m, k2, k3) && Laid(x.value, m, k3, l, false);
    }
  }

  lemma ColonPasses(s: seq<byte>, b: nat, c: nat, m: seq<byte>, k: nat) returns (l: nat)
    requires LaidColon(s, b, c) && Leads(At(s, c))
    ensures Passes(s, b, c, m, k, l) && (Reached(s, b, m, k) ==> LaidColon(m, k, l))
  {
    var q := MarkPasses(s, b, m, k);
    l := LeadPasses(s, Skip(s, b) + 1, m, q + 1);
    PassesBoth(s, b, Skip(s, b) + 1, c, m, k, q + 1, l);
  }

  // ---- a text is read alike before and after

  // for each text of a value, with any blanks, escapes and numbers, minifying stays within the terminator, and what
  // is left is parsed to the same value and to its end
  lemma MinifyKeepsValue(v: Json, t: seq<byte>, j: nat)
    requires Laid(v, t, Skip(t, 0), j, false) && At(t, Skip(t, j)) == 0
    ensures Closed(t, 0) && ParseText(t, false) == Ok(v, j)
    ensures var m := Minified(t, 0); ParseText(m, true) == Ok(v, |m|)
  {
    LaidParses(v, t, Skip(t, 0), j, false);
    var _, _ := WholePasses(v, t, j, []);
    var m := Minified(t, 0);
    assert m[0..] == m;
    var l, end := WholePasses(v, t, j, m);
    assert Minified(t, Skip(t, j)) == [];
    LaidParses(v, m, Skip(m, 0), l, false);
  }

  // a text from its beginning to its end
  lemma WholePasses(v: Json, t: seq<byte>, j: nat, m: seq<byte>) returns (l: nat, end: nat)
    requires Laid(v, t, Skip(t, 0), j, false) && At(t, Skip(t, j)) == 0
    ensures Closed(t, 0)
    ensures Reached(t, 0, m, 0) ==> Laid(v, m, Skip(m, 0), l, false)
    ensures Reached(t, 0, m, 0) ==> Reached(t, Skip(t, j), m, end) && Skip(m, l) == end && At(m, end) == 0
  {
    LaidLeads(v, t, Skip(t, 0), j);
    var k := LeadPasses(t, 0, m, 0);
    l := ValuePasses(v, t, Skip(t, 0), j, m, k);
    end := LeadPasses(t, j, m, l);
  }
}
