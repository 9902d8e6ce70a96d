// Where the parser gives up.
module JsonErrors {
  import opened Bytes
  import opened CString
  import opened Json
  import opened JsonGrammar
  import opened JsonParse
  import opened JsonStrings

  // ---- the texts that stand for nothing, and the place where that shows

  predicate Starts(s: seq<byte>, i: nat) {
    || HasAt(s, i, NULL_TEXT) || HasAt(s, i, FALSE_TEXT) || HasAt(s, i, TRUE_TEXT)
    || At(s, i) in [34, 45, 91, 123] || 48 <= At(s, i) <= 57
  }

  // at is where no value starts, though one has to
  ghost predicate Breaks(s: seq<byte>, i: nat, at: nat)
    decreases |s| - i, 2
  {
    if At(s, i) == 91 then At(s, Skip(s, i + 1)) != 93 && BreaksItems(s, i + 1, at)
    else if At(s, i) == 123 then At(s, Skip(s, i + 1)) != 125 && BreaksMembers(s, i + 1, at)
    else !Starts(s, i) && at == i
  }

  // an item breaks, or what stands behind one
  ghost predicate BreaksItems(s: seq<byte>, i: nat, at: nat)
    decreases |s| - i, 3
  {
    || Breaks(s, Skip(s, i), at)
    || exists v, e :: i < e && i < |s| && Laid(v, s, Skip(s, i), e, true) && BreaksRest(s, Skip(s, e), at)
  }

  ghost predicate BreaksRest(s: seq<byte>, p: nat, at: nat)
    decreases |s| - p, 4
  {
    if At(s, p) == 44 then BreaksItems(s, p + 1, at) else At(s, p) != 93 && at == p
  }

  ghost predicate BreaksMembers(s: seq<byte>, i: nat, at: nat)
    decreases |s| - i, 4
  {
    || BreaksMember(s, i, at)
    || exists m, e :: i < e && i < |s| && LaidMember(m, s, Skip(s, i), e, true) && BreaksMore(s, Skip(s, e), at)
  }

  // there is no name, no colon behind it, or no value behind that
  ghost predicate BreaksMember(s: seq<byte>, i: nat, at: nat)
    decreases |s| - i, 3
  {
    if At(s, Skip(s, i)) != 34 then at == Skip(s, i)
    else
      exists name, b :: i < b && i < |s| && LaidString(name, s, Skip(s, i), b, true) && BreaksColon(s, Skip(s, b), at)
  }

  ghost predicate BreaksColon(s: seq<byte>, p: nat, at: nat)
    decreases |s| - p, 3
  {
    if At(s, p) == 58 then Breaks(s, Skip(s, p + 1), at) else at == p
  }

  ghost predicate BreaksMore(s: seq<byte>, p: nat, at: nat)
    decreases |s| - p, 5
  {
    if At(s, p) == 44 then BreaksMembers(s, p + 1, at) else At(s, p) != 125 && at == p
  }

  // ---- there and nowhere else

  lemma {:induction false} FailsExactly(s: seq<byte>, i: nat, at: nat)
    ensures ParseValue(s, i) == Fail(at) <==> Breaks(s, i, at)
    decreases |s| - i, 2
  {
    OtherStart(s, i);
    if At(s, i) == 91 {
      ItemsFail(s, i + 1, Skip(s, i + 1), at);
    } else if At(s, i) == 123 {
      MembersFail(s, i + 1, Skip(s, i + 1), at);
    }
  }

  lemma {:induction false} ItemsFail(s: seq<byte>, i0: nat, i: nat, at: nat)
    requires Skip(s, i0) == Skip(s, i) && i0 <= i <= Skip(s, i)
    ensures ParseItems(s, i) == Fail(at) <==> BreaksItems(s, i0, at)
    decreases |s| - i0, 3
  {
    var p := Skip(s, i);
    FailsExactly(s, p, at);
    if ParseValue(s, p).Ok? {
      var v, e := ParseValue(s, p).value, ParseValue(s, p).end;
      OnlyValue(s, p, v, e);
      RestFails(s, Skip(s, e), at);
      assert i0 < |s| && i0 < e && Laid(v, s, Skip(s, i0), e, true);
    } else {
      NoValue(s, p);
    }
  }

  lemma OnlyValue(s: seq<byte>, p: nat, v: Json, e: nat)
    requires ParseValue(s, p) == Ok(v, e)
    ensures Laid(v, s, p, e, true) && forall w, f :: Laid(w, s, p, f, true) ==> w == v && f == e
  {
    ParsesExactlyLaid(v, s, p, e);
    forall w, f | Laid(w, s, p, f, true)
      ensures w == v && f == e
    {
      ParsesExactlyLaid(w, s, p, f);
    }
  }

  lemma NoValue(s: seq<byte>, p: nat)
    requires ParseValue(s, p).Fail?
    ensures forall w, f :: !Laid(w, s, p, f, true)
  {
    forall w, f
      ensures !Laid(w, s, p, f, true)
    {
      ParsesExactlyLaid(w, s, p, f);
    }
  }

  lemma RestFails(s: seq<byte>, p: nat, at: nat)
    ensures ItemsAfter(s, p) == Fail(at) <==> BreaksRest(s, p, at)
    decreases |s| - p, 4
  {
    if At(s, p) == COMMA { ItemsFail(s, p + 1, p + 1, at); }
  }

  lemma {:induction false} MembersFail(s: seq<byte>, i0: nat, i: nat, at: nat)
    requires Skip(s, i0) == Skip(s, i) && i0 <= i <= Skip(s, i)
    ensures ParseMembers(s, i) == Fail(at) <==> BreaksMembers(s, i0, at)
    decreases |s| - i0, 4
  {
    MemberFails(s, i0, i, at);
    if ParseMember(s, i).Ok? {
      var m, e := ParseMember(s, i).value, ParseMember(s, i).end;
      OnlyMember(s, i, m, e);
      MoreFails(s, Skip(s, e), at);
      assert i0 < |s| && i0 < e && LaidMember(m, s, Skip(s, i0), e, true);
    } else {
      NoMember(s, i);
    }
  }

  lemma OnlyMember(s: seq<byte>, i: nat, m: Member, e: nat)
    requires ParseMember(s, i) == Ok(m, e)
    ensures LaidMember(m, s, Skip(s, i), e, true)
    ensures forall x, f :: LaidMember(x, s, Skip(s, i), f, true) ==> x == m && f == e
  {
    ParsedMemberIsLaid(m, s, i, e);
    forall x, f | LaidMember(x, s, Skip(s, i), f, true)
      ensures x == m && f == e
    {
      LaidMemberParses(x, s, i, f, true);
    }
  }

  lemma NoMember(s: seq<byte>, i: nat)
    requires ParseMember(s, i).Fail?
    ensures forall x, f :: !LaidMember(x, s, Skip(s, i), f, true)
  {
    forall x, f
      ensures !LaidMember(x, s, Skip(s, i), f, true)
    {
      if LaidMember(x, s, Skip(s, i), f, true) { LaidMemberParses(x, s, i, f, true); }
    }
  }

  lemma MemberFails(s: seq<byte>, i0: nat, i: nat, at: nat)
    requires Skip(s, i0) == Skip(s, i) && i0 <= i
    ensures ParseMember(s, i) == Fail(at) <==> BreaksMember(s, i0, at)
    decreases |s| - i0, 3
  {
    var a := Skip(s, i);
    if At(s, a) == QUOTE {
      var name, b := ParseString(s, a).value, ParseString(s, a).end;
      ColonFails(s, Skip(s, b), at);
      NameThen(s, i, name, b, at);
      assert i0 < |s| && i0 < b && LaidString(name, s, Skip(s, i0), b, true);
    }
  }

  // what a member is read to behind its name
  function AfterName(s: seq<byte>, p: nat): Parsed<Json> {
    if At(s, p) != COLON then Fail(p) else ParseValue(s, Skip(s, p + 1))
  }

  lemma NameThen(s: seq<byte>, i: nat, name: seq<byte>, b: nat, at: nat)
    requires ParseString(s, Skip(s, i)) == Ok(name, b)
    ensures ParseMember(s, i) == Fail(at) <==> AfterName(s, Skip(s, b)) == Fail(at)
  {
  }

  lemma ColonFails(s: seq<byte>, p: nat, at: nat)
    ensures AfterName(s, p) == Fail(at) <==> BreaksColon(s, p, at)
    decreases |s| - p, 3
  {
    if At(s, p) == COLON { FailsExactly(s, Skip(s, p + 1), at); }
  }

  lemma MoreFails(s: seq<byte>, p: nat, at: nat)
    ensures MembersAfter(s, p) == Fail(at) <==> BreaksMore(s, p, at)
    decreases |s| - p, 5
  {
    if At(s, p) == COMMA { MembersFail(s, p + 1, p + 1, at); }
  }

  // ---- a whole text, of which the terminator may be asked for

  lemma TextExactly(s: seq<byte>, v: Json, j: nat)
    ensures ParseText(s, false) == Ok(v, j) <==> Laid(v, s, Skip(s, 0), j, true)
    ensures ParseText(s, true) == Ok(v, j) <==> At(s, j) == 0 && exists e :: Stands(v, s, e, j)
  {
    var r := ParseValue(s, Skip(s, 0));
    ParsesExactlyLaid(v, s, Skip(s, 0), j);
    if e :| Stands(v, s, e, j) { ParsesExactlyLaid(v, s, Skip(s, 0), e); }
    if ParseText(s, true) == Ok(v, j) {
      ParsesExactlyLaid(v, s, Skip(s, 0), r.end);
      assert Stands(v, s, r.end, j);
    }
  }

  // the value stands at the beginning, up to e, and blanks behind it up to j
  ghost predicate Stands(v: Json, s: seq<byte>, e: nat, j: nat) {
    Laid(v, s, Skip(s, 0), e, true) && j == Skip(s, e)
  }

  lemma TextFailsExactly(s: seq<byte>, at: nat)
    ensures ParseText(s, false) == Fail(at) <==> Breaks(s, Skip(s, 0), at)
    ensures ParseText(s, true) == Fail(at) <==>
      Breaks(s, Skip(s, 0), at) || (At(s, at) != 0 && exists v, e :: Stands(v, s, e, at))
  {
    var r := ParseValue(s, Skip(s, 0));
    FailsExactly(s, Skip(s, 0), at);
    if v, e :| Stands(v, s, e, at) { ParsesExactlyLaid(v, s, Skip(s, 0), e); }
    if r.Ok? {
      ParsesExactlyLaid(r.value, s, Skip(s, 0), r.end);
      assert Stands(r.value, s, r.end, Skip(s, r.end));
    }
  }
}
