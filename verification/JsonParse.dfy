// skip, parse_value, parse_array and parse_object.
module JsonParse {
  import opened Bytes
  import opened CString
  import opened Json
  import opened JsonNumbers
  import opened JsonStrings
  import opened Sequences

  function Skip(s: seq<byte>, i: nat): (j: nat)
    ensures i <= j && (i < j ==> i < |s|) && !(1 <= At(s, j) <= SPACE)
    decreases |s| - i
  {
    if 1 <= At(s, i) <= SPACE then Skip(s, i + 1) else i
  }

  method SkipBlanks(s: seq<byte>, i: nat) returns (j: nat)
    ensures j == Skip(s, i)
  {
    j := i;
    while At(s, j) != 0 && At(s, j) <= SPACE
      invariant i <= j && Skip(s, j) == Skip(s, i)
      decreases |s| - j
    {
      j := j + 1;
    }
  }

  // ---- the grammar as the parser reads it

  function ParseValue(s: seq<byte>, i: nat): (r: Parsed<Json>)
    ensures r.Ok? ==> i < r.end
    decreases |s| - i, 2
  {
    if HasAt(s, i, NULL_TEXT) then Ok(Null, i + 4)
    else if HasAt(s, i, FALSE_TEXT) then Ok(False, i + 5)
    else if HasAt(s, i, TRUE_TEXT) then Ok(True, i + 4)
    else if At(s, i) == QUOTE then
      match ParseString(s, i)
      case Fail(at) => Fail(at)
      case Ok(text, end) => Ok(String(text), end)
    else if At(s, i) == MINUS || IsDigit(At(s, i)) then
      var (d, end) := ParseNumber(s, i);
      Ok(Number(d), end)
    else if At(s, i) == LBRACKET then ParseArray(s, i)
    else if At(s, i) == LBRACE then ParseObject(s, i)
    else Fail(i)
  }

  function ParseArray(s: seq<byte>, i: nat): (r: Parsed<Json>)
    requires At(s, i) == LBRACKET
    ensures r.Ok? ==> i < r.end
    decreases |s| - i, 1
  {
    var p := Skip(s, i + 1);
    if At(s, p) == RBRACKET then Ok(Array([]), p + 1)
    else
      match ParseItems(s, p)
      case Fail(at) => Fail(at)
      case Ok(items, end) => Ok(Array(items), end)
  }

  function ParseObject(s: seq<byte>, i: nat): (r: Parsed<Json>)
    requires At(s, i) == LBRACE
    ensures r.Ok? ==> i < r.end
    decreases |s| - i, 1
  {
    var p := Skip(s, i + 1);
    if At(s, p) == RBRACE then Ok(Object([]), p + 1)
    else
      match ParseMembers(s, p)
      case Fail(at) => Fail(at)
      case Ok(members, end) => Ok(Object(members), end)
  }

  // one item or more, from the first one on
  function ParseItems(s: seq<byte>, i: nat): (r: Parsed<seq<Json>>)
    ensures r.Ok? ==> i < r.end
    decreases |s| - i, 3
  {
    match ParseValue(s, Skip(s, i))
    case Fail(at) => Fail(at)
    case Ok(item, end) => Prepend([item], ItemsAfter(s, Skip(s, end)))
  }

  // behind an item
  function ItemsAfter(s: seq<byte>, p: nat): (r: Parsed<seq<Json>>)
    ensures r.Ok? ==> p < r.end
    decreases |s| - p, 4
  {
    if At(s, p) == COMMA then ParseItems(s, p + 1)
    else if At(s, p) == RBRACKET then Ok([], p + 1)
    else Fail(p)
  }

  function ParseMember(s: seq<byte>, i: nat): (r: Parsed<Member>)
    ensures r.Ok? ==> i < r.end
    decreases |s| - i, 3
  {
    match ParseString(s, Skip(s, i))
    case Fail(at) => Fail(at)
    case Ok(name, end) =>
      var p := Skip(s, end);
      if At(s, p) != COLON then Fail(p)
      else
        match ParseValue(s, Skip(s, p + 1))
        case Fail(at) => Fail(at)
        case Ok(value, stop) => Ok(Member(name, value), stop)
  }

  function ParseMembers(s: seq<byte>, i: nat): (r: Parsed<seq<Member>>)
    ensures r.Ok? ==> i < r.end
    decreases |s| - i, 4
  {
    match ParseMember(s, i)
    case Fail(at) => Fail(at)
    case Ok(member, end) => Prepend([member], MembersAfter(s, Skip(s, end)))
  }

  function MembersAfter(s: seq<byte>, p: nat): (r: Parsed<seq<Member>>)
    ensures r.Ok? ==> p < r.end
    decreases |s| - p, 5
  {
    if At(s, p) == COMMA then ParseMembers(s, p + 1)
    else if At(s, p) == RBRACE then Ok([], p + 1)
    else Fail(p)
  }

  function Prepend<T>(a: seq<T>, r: Parsed<seq<T>>): Parsed<seq<T>> {
    match r
    case Fail(at) => Fail(at)
    case Ok(b, end) => Ok(a + b, end)
  }

  lemma PrependTwice<T>(a: seq<T>, b: seq<T>, r: Parsed<seq<T>>)
    ensures Prepend(a, Prepend(b, r)) == Prepend(a + b, r)
  {
    if r.Ok? {
      Assoc(a, b, r.value);
    }
  }

  // ---- the parser

  method ValueAt(s: seq<byte>, i: nat) returns (r: Parsed<Json>)
    ensures r == ParseValue(s, i)
    decreases |s| - i, 2
  {
    if HasAt(s, i, NULL_TEXT) {
      return Ok(Null, i + 4);
    }
    if HasAt(s, i, FALSE_TEXT) {
      return Ok(False, i + 5);
    }
    if HasAt(s, i, TRUE_TEXT) {
      return Ok(True, i + 4);
    }
    if At(s, i) == QUOTE {
      var text, _ := StringAt(s, i);
      return match text case Fail(at) => Fail(at) case Ok(t, end) => Ok(String(t), end);
    }
    if At(s, i) == MINUS || IsDigit(At(s, i)) {
      var d, end := NumberAt(s, i);
      return Ok(Number(d), end);
    }
    if At(s, i) == LBRACKET {
      r := ArrayAt(s, i);
      return;
    }
    if At(s, i) == LBRACE {
      r := ObjectAt(s, i);
      return;
    }
    r := Fail(i);
  }

  method ArrayAt(s: seq<byte>, i: nat) returns (r: Parsed<Json>)
    requires At(s, i) == LBRACKET
    ensures r == ParseArray(s, i)
    decreases |s| - i, 1
  {
    var value := SkipBlanks(s, i + 1);
    if At(s, value) == RBRACKET {
      return Ok(Array([]), value + 1);
    }
    var items := ItemsAt(s, value);
    r := match items case Fail(at) => Fail(at) case Ok(list, end) => Ok(Array(list), end);
  }

  method ItemsAt(s: seq<byte>, first: nat) returns (r: Parsed<seq<Json>>)
    ensures r == ParseItems(s, first)
    decreases |s| - first, 3
  {
    var value := SkipBlanks(s, first);
    var child := ValueAt(s, value);
    if child.Fail? {
      return Fail(child.at);
    }
    var items := [child.value];
    value := SkipBlanks(s, child.end);
    while At(s, value) == COMMA
      invariant first < value
      invariant ParseItems(s, first) == Prepend(items, ItemsAfter(s, value))
      decreases |s| - value
    {
      var start := SkipBlanks(s, value + 1);
      child := ValueAt(s, start);
      if child.Fail? {
        return Fail(child.at);
      }
      value := SkipBlanks(s, child.end);
      PrependTwice(items, [child.value], ItemsAfter(s, value));
      items := items + [child.value];
    }
    r := if At(s, value) == RBRACKET then Ok(items, value + 1) else Fail(value);
    assert items + [] == items;
  }

  method MemberAt(s: seq<byte>, i: nat) returns (r: Parsed<Member>)
    ensures r == ParseMember(s, i)
    decreases |s| - i, 3
  {
    var value := SkipBlanks(s, i);
    var name, _ := StringAt(s, value);
    if name.Fail? {
      return Fail(name.at);
    }
    value := SkipBlanks(s, name.end);
    if At(s, value) != COLON {
      return Fail(value);
    }
    value := SkipBlanks(s, value + 1);
    var child := ValueAt(s, value);
    r := match child case Fail(at) => Fail(at) case Ok(v, end) => Ok(Member(name.value, v), end);
  }

  method ObjectAt(s: seq<byte>, i: nat) returns (r: Parsed<Json>)
    requires At(s, i) == LBRACE
    ensures r == ParseObject(s, i)
    decreases |s| - i, 1
  {
    var value := SkipBlanks(s, i + 1);
    if At(s, value) == RBRACE {
      return Ok(Object([]), value + 1);
    }
    var members := MembersAt(s, value);
    r := match members case Fail(at) => Fail(at) case Ok(list, end) => Ok(Object(list), end);
  }

  method MembersAt(s: seq<byte>, first: nat) returns (r: Parsed<seq<Member>>)
    ensures r == ParseMembers(s, first)
    decreases |s| - first, 4
  {
    var child := MemberAt(s, first);
    if child.Fail? {
      return Fail(child.at);
    }
    var members := [child.value];
    var value := SkipBlanks(s, child.end);
    while At(s, value) == COMMA
      invariant first < value
      invariant ParseMembers(s, first) == Prepend(members, MembersAfter(s, value))
      decreases |s| - value
    {
      child := MemberAt(s, value + 1);
      if child.Fail? {
        return Fail(child.at);
      }
      value := SkipBlanks(s, child.end);
      PrependTwice(members, [child.value], MembersAfter(s, value));
      members := members + [child.value];
    }
    r := if At(s, value) == RBRACE then Ok(members, value + 1) else Fail(value);
    assert members + [] == members;
  }

  // a whole text: one value, and only blanks behind it if the terminator is asked for
  function ParseText(s: seq<byte>, terminated: bool): Parsed<Json> {
    var r := ParseValue(s, Skip(s, 0));
    if r.Fail? || !terminated then r
    else if At(s, Skip(s, r.end)) != 0 then Fail(Skip(s, r.end))
    else Ok(r.value, Skip(s, r.end))
  }

  // cJSON_ParseWithOpts
  method Parse(s: seq<byte>, terminated: bool) returns (r: Parsed<Json>)
    ensures r == ParseText(s, terminated)
  {
    var start := SkipBlanks(s, 0);
    r := ValueAt(s, start);
    if r.Ok? && terminated {
      var end := SkipBlanks(s, r.end);
      r := if At(s, end) != 0 then Fail(end) else Ok(r.value, end);
    }
  }
}
