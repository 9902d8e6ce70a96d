// The printers that allocate each value and join.
module JsonPlain {
  import opened Bytes
  import opened Json
  import opened JsonPrint
  import opened Sequences

  method StrLen(a: array<byte>, ghost t: seq<byte>) returns (n: nat)
    requires IsCString(a, 0, t) && IsText(t)
    ensures n == |t|
  {
    n := 0;
    while a[n] != 0
      invariant n <= |t|
      decreases |t| - n
    {
      n := n + 1;
    }
  }

  method Allocated(size: nat, text: seq<byte>) returns (out: array<byte>)
    requires |text| < size
    ensures fresh(out) && IsCString(out, 0, text)
  {
    out := new byte[size];
    var ptr := Put(out, 0, text + [0]);
    Terminated(out, text);
  }

  lemma Terminated(out: array<byte>, text: seq<byte>)
    requires |text| < out.Length && out[..|text| + 1] == text + [0]
    ensures IsCString(out, 0, text)
  {
    assert out[..|text| + 1][|text|] == 0;
    assert out[0..|text|] == out[..|text| + 1][..|text|] == text;
  }

  // the last byte of a text, and its end
  method Close(out: array<byte>, ptr: nat, bracket: byte, ghost text: seq<byte>)
    requires ptr + 2 <= out.Length && text == out[..ptr] + [bracket]
    modifies out
    ensures IsCString(out, 0, text)
  {
    Assoc(out[..ptr], [bracket], [0]);
    var _ := Put(out, ptr, [bracket] + [0]);
    Terminated(out, text);
  }

  // ---- the space an array or an object asks for

  ghost function ItemsRoom(items: seq<Json>, depth: nat, fmt: bool): nat {
    if items == [] then 0
    else |Print(items[0], depth, fmt)| + 2 + (if fmt then 1 else 0) + ItemsRoom(items[1..], depth, fmt)
  }

  ghost function MembersRoom(members: seq<Member>, depth: nat, fmt: bool): nat {
    if members == [] then 0 else MemberRoom(members[0], depth, fmt) + MembersRoom(members[1..], depth, fmt)
  }

  ghost function MemberRoom(m: Member, depth: nat, fmt: bool): nat {
    |Print(m.value, depth, fmt)| + |PrintString(m.name)| + 2 + (if fmt then 2 + depth else 0)
  }

  lemma {:induction false} ItemsFit(items: seq<Json>, depth: nat, fmt: bool)
    ensures |PrintItems(items, depth, fmt)| <= ItemsRoom(items, depth, fmt)
  {
    if items != [] {
      ItemsFit(items[1..], depth, fmt);
    }
  }

  lemma {:induction false} MembersFit(members: seq<Member>, depth: nat, fmt: bool)
    ensures |PrintMembers(members, depth, fmt)| <= MembersRoom(members, depth, fmt)
  {
    if members != [] {
      MembersFit(members[1..], depth, fmt);
    }
  }

  // the printed items, each in an allocation of its own
  ghost predicate AreItems(entries: seq<array<byte>>, items: seq<Json>, depth: nat, fmt: bool)
    reads entries
  {
    |entries| <= |items|
    && forall k :: 0 <= k < |entries| ==> IsCString(entries[k], 0, Print(items[k], depth, fmt))
  }

  // the printed names and values of the members
  ghost predicate AreMembers(names: seq<array<byte>>, entries: seq<array<byte>>, members: seq<Member>, depth: nat,
                             fmt: bool)
    reads names, entries
  {
    |names| == |entries| <= |members|
    && (forall k :: 0 <= k < |names| ==> IsCString(names[k], 0, PrintString(members[k].name)))
    && forall k :: 0 <= k < |entries| ==> IsCString(entries[k], 0, Print(members[k].value, depth, fmt))
  }

  // ---- each value into an allocation of its own

  method ValuePlain(v: Json, depth: nat, fmt: bool) returns (out: array<byte>)
    requires Printable(v)
    ensures fresh(out) && IsCString(out, 0, Print(v, depth, fmt))
    decreases v, 1
  {
    match v {
      case Null => out := Allocated(5, NULL_TEXT);
      case False => out := Allocated(6, FALSE_TEXT);
      case True => out := Allocated(5, TRUE_TEXT);
      case Number(d) =>
        NumberFits(d);
        if d == 0.0 {
          out := Allocated(2, [ZERO]);
        } else {
          out := Allocated(21, PrintNumber(d));
        }
      case String(s) => out := StringPlain(s);
      case Array(items) => out := ArrayPlain(items, depth, fmt);
      case Object(members) => out := ObjectPlain(members, depth, fmt);
    }
  }

  method StringPlain(s: seq<byte>) returns (out: array<byte>)
    requires IsText(s)
    ensures fresh(out) && IsCString(out, 0, PrintString(s))
  {
    var needed, text := QuotedText(s);
    out := Allocated(needed, text);
  }

  // the entries of an array and the space they add up to
  method Entries(items: seq<Json>, depth: nat, fmt: bool) returns (entries: seq<array<byte>>, len: nat)
    requires PrintableItems(items)
    ensures AreItems(entries, items, depth, fmt) && |entries| == |items| && len == ItemsRoom(items, depth, fmt)
    decreases items, 0
  {
    entries, len := [], 0;
    assert items[0..] == items;
    while |entries| < |items|
      invariant AreItems(entries, items, depth, fmt)
      invariant len + ItemsRoom(items[|entries|..], depth, fmt) == ItemsRoom(items, depth, fmt)
    {
      var i := |entries|;
      PrintableAt(items, i);
      assert items[i..][1..] == items[i + 1..];
      var ret := ValuePlain(items[i], depth, fmt);
      PrintIsText(items[i], depth, fmt);
      var tmplen := StrLen(ret, Print(items[i], depth, fmt));
      len := len + tmplen + 2 + (if fmt then 1 else 0);
      entries := entries + [ret];
    }
  }

  // *ptr = 0: nothing before ptr changes
  method Terminate(out: array<byte>, ptr: nat)
    requires ptr < out.Length
    modifies out
    ensures out[..ptr] == old(out[..ptr])
  {
    out[ptr] := 0;
  }

  method JoinItem(out: array<byte>, ptr0: nat, entry: array<byte>, ghost v: Json, last: bool, ghost depth: nat,
                  fmt: bool)
    returns (ptr: nat)
    requires out != entry && Printable(v) && IsCString(entry, 0, Print(v, depth, fmt))
    requires ptr0 + |Print(v, depth, fmt) + ItemEnd(last, fmt)| < out.Length
    modifies out
    ensures ptr == ptr0 + |Print(v, depth, fmt) + ItemEnd(last, fmt)|
    ensures out[..ptr] == old(out[..ptr0]) + (Print(v, depth, fmt) + ItemEnd(last, fmt))
  {
    Assoc(out[..ptr0], Print(v, depth, fmt), ItemEnd(last, fmt));
    PrintIsText(v, depth, fmt);
    var tmplen := StrLen(entry, Print(v, depth, fmt));
    ptr := Put(out, ptr0, entry[..tmplen]);
    if !last {
      ptr := Put(out, ptr, Comma(fmt));
      Terminate(out, ptr);
    }
  }

  method JoinItems(out: array<byte>, ptr0: nat, entries: seq<array<byte>>, ghost items: seq<Json>, ghost depth: nat,
                   fmt: bool)
    returns (ptr: nat)
    requires PrintableItems(items) && AreItems(entries, items, depth, fmt) && |entries| == |items| && out !in entries
    requires ptr0 + |PrintItems(items, depth, fmt)| < out.Length
    modifies out
    ensures ptr == ptr0 + |PrintItems(items, depth, fmt)|
    ensures out[..ptr] == old(out[..ptr0]) + PrintItems(items, depth, fmt)
  {
    ptr := ptr0;
    var i := 0;
    assert items[0..] == items;
    ghost var body := out[..ptr] + PrintItems(items, depth, fmt);
    while i < |entries|
      invariant i <= |items| && ptr <= |body| < out.Length && AreItems(entries, items, depth, fmt)
      invariant out[..ptr] + PrintItems(items[i..], depth, fmt) == body
    {
      ghost var item := Print(items[i], depth, fmt) + ItemEnd(i + 1 == |items|, fmt);
      PrintableAt(items, i);
      ItemsStep(items, i, depth, fmt);
      Assoc(out[..ptr], item, PrintItems(items[i + 1..], depth, fmt));
      ptr := JoinItem(out, ptr, entries[i], items[i], i + 1 == |entries|, depth, fmt);
      i := i + 1;
    }
    assert out[..ptr] + [] == out[..ptr];
  }

  method ArrayPlain(items: seq<Json>, depth: nat, fmt: bool) returns (out: array<byte>)
    requires PrintableItems(items)
    ensures fresh(out) && IsCString(out, 0, PrintArray(items, depth, fmt))
    decreases items, 1
  {
    if |items| == 0 {
      assert [LBRACKET] + [] + [RBRACKET] == [LBRACKET, RBRACKET];
      out := Allocated(3, [LBRACKET, RBRACKET]);
      return;
    }
    var entries, len := Entries(items, depth + 1, fmt);
    ItemsFit(items, depth + 1, fmt);
    out := new byte[5 + len];
    var ptr := Put(out, 0, [LBRACKET]);
    Terminate(out, ptr);
    ptr := JoinItems(out, ptr, entries, items, depth + 1, fmt);
    Close(out, ptr, RBRACKET, PrintArray(items, depth, fmt));
  }

  // the names and the values of an object and the space they add up to
  method NamesAndEntries(members: seq<Member>, depth: nat, fmt: bool)
    returns (names: seq<array<byte>>, entries: seq<array<byte>>, len: nat)
    requires PrintableMembers(members)
    ensures AreMembers(names, entries, members, depth, fmt) && |names| == |members|
    ensures len == MembersRoom(members, depth, fmt)
    decreases members, 1
  {
    names, entries, len := [], [], 0;
    assert members[0..] == members;
    while |entries| < |members|
      invariant AreMembers(names, entries, members, depth, fmt)
      invariant len + MembersRoom(members[|names|..], depth, fmt) == MembersRoom(members, depth, fmt)
    {
      names, entries, len := NextEntry(names, entries, len, members, depth, fmt);
    }
  }

  method NextEntry(names0: seq<array<byte>>, entries0: seq<array<byte>>, len0: nat, members: seq<Member>,
                   depth: nat, fmt: bool) returns (names: seq<array<byte>>, entries: seq<array<byte>>, len: nat)
    requires PrintableMembers(members) && AreMembers(names0, entries0, members, depth, fmt) && |names0| < |members|
    ensures AreMembers(names, entries, members, depth, fmt) && |names| == |names0| + 1
    ensures len + MembersRoom(members[|names|..], depth, fmt) == len0 + MembersRoom(members[|names0|..], depth, fmt)
    decreases members, 0
  {
    var i := |names0|;
    RoomStep(members, i, depth, fmt);
    var str, ret, more := NameAndEntry(members[i], depth, fmt);
    MembersSnoc(names0, entries0, str, ret, members, depth, fmt);
    names, entries, len := names0 + [str], entries0 + [ret], len0 + more;
  }

  lemma RoomStep(members: seq<Member>, i: nat, depth: nat, fmt: bool)
    requires PrintableMembers(members) && i < |members|
    ensures IsText(members[i].name) && Printable(members[i].value)
    ensures MembersRoom(members[i..], depth, fmt)
         == MemberRoom(members[i], depth, fmt) + MembersRoom(members[i + 1..], depth, fmt)
  {
    PrintableMemberAt(members, i);
    assert members[i..][1..] == members[i + 1..];
  }

  lemma MembersSnoc(names: seq<array<byte>>, entries: seq<array<byte>>, str: array<byte>, ret: array<byte>,
                    members: seq<Member>, depth: nat, fmt: bool)
    requires AreMembers(names, entries, members, depth, fmt) && |names| < |members|
    requires IsCString(str, 0, PrintString(members[|names|].name))
    requires IsCString(ret, 0, Print(members[|names|].value, depth, fmt))
    ensures AreMembers(names + [str], entries + [ret], members, depth, fmt)
  {
  }

  method NameAndEntry(m: Member, depth: nat, fmt: bool) returns (str: array<byte>, ret: array<byte>, len: nat)
    requires IsText(m.name) && Printable(m.value)
    ensures IsCString(str, 0, PrintString(m.name)) && IsCString(ret, 0, Print(m.value, depth, fmt))
    ensures len == MemberRoom(m, depth, fmt)
    decreases m, 2
  {
    str := StringPlain(m.name);
    ret := ValuePlain(m.value, depth, fmt);
    PrintIsText(m.value, depth, fmt);
    EscapesAreText(m.name);
    var retlen := StrLen(ret, Print(m.value, depth, fmt));
    var strlen := StrLen(str, PrintString(m.name));
    len := retlen + strlen + 2 + (if fmt then 2 + depth else 0);
  }

  method JoinMember(out: array<byte>, ptr0: nat, name: array<byte>, entry: array<byte>, ghost m: Member, last: bool,
                    depth: nat, fmt: bool) returns (ptr: nat)
    requires out != name && out != entry && IsText(m.name) && Printable(m.value)
    requires IsCString(name, 0, PrintString(m.name)) && IsCString(entry, 0, Print(m.value, depth, fmt))
    requires ptr0 + |PrintMember(m, last, depth, fmt)| < out.Length
    modifies out
    ensures ptr == ptr0 + |PrintMember(m, last, depth, fmt)|
    ensures out[..ptr] == old(out[..ptr0]) + PrintMember(m, last, depth, fmt)
  {
    AssocFive(out[..ptr0], Indent(depth, fmt), PrintString(m.name), Colon(fmt), Print(m.value, depth, fmt),
              MemberEnd(last, fmt));
    PrintIsText(m.value, depth, fmt);
    EscapesAreText(m.name);
    ptr := Put(out, ptr0, Indent(depth, fmt));
    var tmplen := StrLen(name, PrintString(m.name));
    ptr := Put(out, ptr, name[..tmplen]);
    ptr := Put(out, ptr, Colon(fmt));
    tmplen := StrLen(entry, Print(m.value, depth, fmt));
    ptr := Put(out, ptr, entry[..tmplen]);
    ptr := Put(out, ptr, MemberEnd(last, fmt));
    Terminate(out, ptr);
  }

  lemma NextMember(members: seq<Member>, i: nat, depth: nat, fmt: bool, done: seq<byte>)
    requires PrintableMembers(members) && i < |members|
    ensures IsText(members[i].name) && Printable(members[i].value)
    ensures var member := PrintMember(members[i], i + 1 == |members|, depth, fmt);
      done + member + PrintMembers(members[i + 1..], depth, fmt) == done + PrintMembers(members[i..], depth, fmt)
  {
    PrintableMemberAt(members, i);
    MembersStep(members, i, depth, fmt);
    Assoc(done, PrintMember(members[i], i + 1 == |members|, depth, fmt), PrintMembers(members[i + 1..], depth, fmt));
  }

  method JoinMembers(out: array<byte>, ptr0: nat, names: seq<array<byte>>, entries: seq<array<byte>>,
                     ghost members: seq<Member>, depth: nat, fmt: bool) returns (ptr: nat)
    requires PrintableMembers(members) && AreMembers(names, entries, members, depth, fmt) && |names| == |members|
    requires out !in names && out !in entries
    requires ptr0 + |PrintMembers(members, depth, fmt)| < out.Length
    modifies out
    ensures ptr == ptr0 + |PrintMembers(members, depth, fmt)|
    ensures out[..ptr] == old(out[..ptr0]) + PrintMembers(members, depth, fmt)
  {
    ptr := ptr0;
    var i := 0;
    assert members[0..] == members;
    ghost var body := out[..ptr] + PrintMembers(members, depth, fmt);
    while i < |entries|
      invariant i <= |members| && Joining(out, ptr, members, i, depth, fmt, body)
    {
      ptr := JoinNext(out, ptr, names[i], entries[i], members, i, i + 1 == |entries|, depth, fmt, body);
      i := i + 1;
    }
    assert out[..ptr] + [] == out[..ptr];
  }

  // body is what stands in front of ptr and the members from i on
  ghost predicate Joining(out: array<byte>, ptr: nat, members: seq<Member>, i: nat, depth: nat, fmt: bool,
                          body: seq<byte>)
    requires i <= |members|
    reads out
  {
    ptr <= |body| < out.Length && out[..ptr] + PrintMembers(members[i..], depth, fmt) == body
  }

  method JoinNext(out: array<byte>, ptr0: nat, name: array<byte>, entry: array<byte>, ghost members: seq<Member>,
                  ghost i: nat, last: bool, depth: nat, fmt: bool, ghost body: seq<byte>) returns (ptr: nat)
    requires PrintableMembers(members) && i < |members| && last == (i + 1 == |members|)
    requires Joining(out, ptr0, members, i, depth, fmt, body) && out != name && out != entry
    requires IsCString(name, 0, PrintString(members[i].name))
    requires IsCString(entry, 0, Print(members[i].value, depth, fmt))
    modifies out
    ensures Joining(out, ptr, members, i + 1, depth, fmt, body)
  {
    NextMember(members, i, depth, fmt, out[..ptr0]);
    ptr := JoinMember(out, ptr0, name, entry, members[i], last, depth, fmt);
  }

  method EmptyObject(depth: nat, fmt: bool) returns (out: array<byte>)
    ensures fresh(out) && IsCString(out, 0, PrintObject([], depth, fmt))
  {
    out := Allocated(if fmt then depth + 4 else 3, [LBRACE] + LineEnd(fmt) + [] + Indent(depth, fmt) + [RBRACE]);
  }

  method ObjectPlain(members: seq<Member>, depth: nat, fmt: bool) returns (out: array<byte>)
    requires PrintableMembers(members)
    ensures fresh(out) && IsCString(out, 0, PrintObject(members, depth, fmt))
    decreases members, 2
  {
    if |members| == 0 {
      out := EmptyObject(depth, fmt);
      return;
    }
    var names, entries, len := NamesAndEntries(members, depth + 1, fmt);
    MembersFit(members, depth + 1, fmt);
    out := new byte[7 + (if fmt then depth + 1 else 0) + len];
    ObjectLength(members, depth, fmt);
    Compose(out, names, entries, members, depth, fmt);
  }

  lemma ObjectLength(members: seq<Member>, depth: nat, fmt: bool)
    ensures PrintObject(members, depth, fmt)
         == [LBRACE] + LineEnd(fmt) + PrintMembers(members, depth + 1, fmt) + Indent(depth, fmt) + [RBRACE]
    ensures |PrintObject(members, depth, fmt)|
         == 2 + |PrintMembers(members, depth + 1, fmt)| + (if fmt then 1 + depth else 0)
  {
  }

  method Compose(out: array<byte>, names: seq<array<byte>>, entries: seq<array<byte>>,
                 ghost members: seq<Member>, depth: nat, fmt: bool)
    requires PrintableMembers(members) && AreMembers(names, entries, members, depth + 1, fmt) && |names| == |members|
    requires out !in names && out !in entries && |PrintObject(members, depth, fmt)| < out.Length
    modifies out
    ensures IsCString(out, 0, PrintObject(members, depth, fmt))
  {
    ObjectLength(members, depth, fmt);
    var ptr := OpenObject(out, fmt);
    ptr := JoinMembers(out, ptr, names, entries, members, depth + 1, fmt);
    CloseObject(out, ptr, PrintMembers(members, depth + 1, fmt), depth, fmt);
  }

  method OpenObject(out: array<byte>, fmt: bool) returns (ptr: nat)
    requires 2 < out.Length
    modifies out
    ensures ptr == |[LBRACE] + LineEnd(fmt)| && out[..ptr] == [LBRACE] + LineEnd(fmt)
  {
    ptr := Put(out, 0, [LBRACE] + LineEnd(fmt));
    Terminate(out, ptr);
  }

  method CloseObject(out: array<byte>, ptr0: nat, ghost body: seq<byte>, depth: nat, fmt: bool)
    requires ptr0 + |Indent(depth, fmt)| + 2 <= out.Length && out[..ptr0] == [LBRACE] + LineEnd(fmt) + body
    modifies out
    ensures IsCString(out, 0, [LBRACE] + LineEnd(fmt) + body + Indent(depth, fmt) + [RBRACE])
  {
    ghost var head := [LBRACE] + LineEnd(fmt) + body;
    var ptr := Put(out, ptr0, Indent(depth, fmt));
    Close(out, ptr, RBRACE, head + Indent(depth, fmt) + [RBRACE]);
  }

  // cJSON_Print and cJSON_PrintUnformatted
  method PrintPlain(v: Json, fmt: bool) returns (out: array<byte>)
    requires Printable(v)
    ensures fresh(out) && IsCString(out, 0, Print(v, 0, fmt))
  {
    out := ValuePlain(v, 0, fmt);
  }
}
