// cJSON_Minify, in place.
module JsonMinify {
  import opened Bytes
  import opened CString
  import opened Json
  import opened Sequences

  // ---- the tokens of a text

  predicate IsBlank(c: byte) {
    c == SPACE || c == TAB || c == RETURN || c == NEWLINE
  }

  predicate LineComment(s: seq<byte>, i: nat) {
    At(s, i) == SLASH && At(s, i + 1) == SLASH
  }

  predicate BlockComment(s: seq<byte>, i: nat) {
    At(s, i) == SLASH && At(s, i + 1) == STAR
  }

  // the first line feed, or the end
  function LineStop(s: seq<byte>, i: nat): (j: nat)
    ensures i <= j
    decreases |s| - i
  {
    if At(s, i) != 0 && At(s, i) != NEWLINE then LineStop(s, i + 1) else i
  }

  // the first end of a block comment, or the end
  function BlockStop(s: seq<byte>, i: nat): (j: nat)
    ensures i <= j
    decreases |s| - i
  {
    if At(s, i) != 0 && !(At(s, i) == STAR && At(s, i + 1) == SLASH) then BlockStop(s, i + 1) else i
  }

  // the closing quote, or the end
  function LiteralStop(s: seq<byte>, i: nat): (j: nat)
    ensures i <= j
    decreases |s| - i
  {
    if At(s, i) == 0 || At(s, i) == QUOTE then i
    else LiteralStop(s, if At(s, i) == BACKSLASH then i + 2 else i + 1)
  }

  function TokenEnd(s: seq<byte>, i: nat): (j: nat)
    ensures At(s, i) != 0 ==> i < j
  {
    if LineComment(s, i) then LineStop(s, i)
    else if BlockComment(s, i) then BlockStop(s, i) + 2
    else if At(s, i) == QUOTE then LiteralStop(s, i + 1) + 1
    else i + 1
  }

  predicate Kept(s: seq<byte>, i: nat) {
    !IsBlank(At(s, i)) && !LineComment(s, i) && !BlockComment(s, i)
  }

  // every literal and every block comment is closed
  predicate Closed(s: seq<byte>, i: nat)
    decreases |s| - i
  {
    At(s, i) == 0 || (TokenEnd(s, i) <= |s| && Closed(s, TokenEnd(s, i)))
  }

  // the tokens from i on that are neither blank nor comment
  function Minified(s: seq<byte>, i: nat): seq<byte>
    requires Closed(s, i)
    decreases |s| - i
  {
    if At(s, i) == 0 then []
    else (if Kept(s, i) then s[i..TokenEnd(s, i)] else []) + Minified(s, TokenEnd(s, i))
  }

  // ---- where comments end

  // a line comment reaches up to the first line feed
  lemma {:induction false} LineStopIsFirst(s: seq<byte>, i: nat)
    ensures var j := LineStop(s, i); At(s, j) == 10 || At(s, j) == 0
    ensures forall k :: i <= k < LineStop(s, i) ==> At(s, k) != 10 && At(s, k) != 0
    decreases |s| - i
  {
    if At(s, i) != 0 && At(s, i) != NEWLINE { LineStopIsFirst(s, i + 1); }
  }

  // a block comment up to the first star before a slash
  lemma {:induction false} BlockStopIsFirst(s: seq<byte>, i: nat)
    ensures var j := BlockStop(s, i); (At(s, j) == 42 && At(s, j + 1) == 47) || At(s, j) == 0
    ensures forall k :: i <= k < BlockStop(s, i) ==> !(At(s, k) == 42 && At(s, k + 1) == 47) && At(s, k) != 0
    decreases |s| - i
  {
    if At(s, i) != 0 && !(At(s, i) == STAR && At(s, i + 1) == SLASH) { BlockStopIsFirst(s, i + 1); }
  }

  // ---- in place: json is the place read and into the place written

  // the text not yet read is still what it was
  ghost predicate Unread(a: array<byte>, json: nat, n: nat, s: seq<byte>)
    reads a
  {
    json <= n == |s| && n < a.Length && 0 !in s && a[n] == 0 && a[json..n] == s[json..]
  }

  lemma ReadAt(a: array<byte>, json: nat, n: nat, s: seq<byte>, k: nat)
    requires Unread(a, json, n, s) && json <= k <= n
    ensures a[k] == At(s, k) && (a[k] == 0 <==> k == n)
  {
    if k < n {
      assert a[json..n][k - json] == s[json..][k - json];
    }
  }

  method SkipLine(a: array<byte>, i: nat, n: nat, ghost s: seq<byte>) returns (json: nat)
    requires Unread(a, i, n, s)
    ensures json == LineStop(s, i)
  {
    json := i;
    ReadAt(a, i, n, s, json);
    while a[json] != 0 && a[json] != NEWLINE
      invariant i <= json <= n && LineStop(s, json) == LineStop(s, i)
      invariant a[json] == At(s, json) && (a[json] == 0 <==> json == n)
      decreases n - json
    {
      json := json + 1;
      ReadAt(a, i, n, s, json);
    }
  }

  method SkipBlock(a: array<byte>, i: nat, n: nat, ghost s: seq<byte>) returns (json: nat)
    requires Unread(a, i, n, s)
    ensures json == BlockStop(s, i)
  {
    json := i;
    ReadAt(a, i, n, s, json);
    while a[json] != 0 && !(a[json] == STAR && a[json + 1] == SLASH)
      invariant i <= json <= n && BlockStop(s, json) == BlockStop(s, i)
      invariant a[json] == At(s, json) && (a[json] == 0 <==> json == n)
      decreases n - json
    {
      ReadAt(a, i, n, s, json + 1);
      json := json + 1;
    }
    if json < n {
      ReadAt(a, i, n, s, json + 1);
    }
  }

  // *into++ = *json++, with done and the bytes of s from i already in front
  method Move(a: array<byte>, into: nat, json: nat, n: nat, ghost s: seq<byte>, ghost done: seq<byte>, ghost i: nat)
    returns (nextInto: nat, nextJson: nat)
    requires Unread(a, json, n, s) && into <= json < n
    requires i <= json && a[..into] == done + s[i..json]
    modifies a
    ensures nextInto == into + 1 && nextJson == json + 1
    ensures Unread(a, nextJson, n, s) && a[..nextInto] == done + s[i..nextJson]
  {
    ReadAt(a, json, n, s, json);
    a[into] := a[json];
    assert a[json + 1..n] == old(a[json..n])[1..];
    assert a[..into + 1] == old(a[..into]) + [s[json]];
    assert s[i..json] + [s[json]] == s[i..json + 1];
    Assoc(done, s[i..json], [s[json]]);
    nextInto, nextJson := into + 1, json + 1;
  }

  // a byte of a literal, or an escaped one with its backslash
  method CopyUnit(a: array<byte>, into0: nat, json0: nat, n: nat, ghost s: seq<byte>, ghost done: seq<byte>,
                  ghost i: nat)
    returns (into: nat, json: nat)
    requires Unread(a, json0, n, s) && into0 <= json0 < n && i <= json0 && a[..into0] == done + s[i..json0]
    modifies a
    ensures json == if s[json0] == BACKSLASH then json0 + 2 else json0 + 1
    ensures json <= n ==> into == into0 + (json - json0) && Unread(a, json, n, s) && a[..into] == done + s[i..json]
  {
    ReadAt(a, json0, n, s, json0);
    into, json := into0, json0;
    if a[json] == BACKSLASH {
      into, json := Move(a, into, json, n, s, done, i);
      if json == n {
        return into, n + 1;
      }
    }
    into, json := Move(a, into, json, n, s, done, i);
  }

  // a literal; if it is not closed the copy stops where the source would go on past the terminator
  method CopyLiteral(a: array<byte>, into0: nat, i: nat, n: nat, ghost s: seq<byte>) returns (into: nat, json: nat)
    requires Unread(a, i, n, s) && into0 <= i < n && s[i] == QUOTE
    modifies a
    ensures json == LiteralStop(s, i + 1) + 1
    ensures json <= n ==> into == into0 + (json - i) && Unread(a, json, n, s)
    ensures json <= n ==> a[..into] == old(a[..into0]) + s[i..json]
  {
    ghost var stop, done := LiteralStop(s, i + 1), a[..into0];
    assert done + s[i..i] == done;
    into, json := Move(a, into0, i, n, s, done, i);
    ReadAt(a, json, n, s, json);
    while a[json] != 0 && a[json] != QUOTE
      invariant i < json <= n && LiteralStop(s, json) == stop && into == into0 + (json - i)
      invariant Unread(a, json, n, s) && a[json] == At(s, json)
      invariant a[..into] == done + s[i..json]
      decreases n - json
    {
      into, json := CopyUnit(a, into, json, n, s, done, i);
      if json > n {
        return into, json + 1;
      }
      ReadAt(a, json, n, s, json);
    }
    if json == n {
      return into, n + 1;
    }
    into, json := Move(a, into, json, n, s, done, i);
  }

  lemma UnreadLater(a: array<byte>, i: nat, n: nat, s: seq<byte>, j: nat)
    requires Unread(a, i, n, s) && i <= j <= n
    ensures Unread(a, j, n, s)
  {
    assert a[j..n] == a[i..n][j - i..] && s[j..] == s[i..][j - i..];
  }

  // one round of the loop: what stands at i is dropped or moved down
  method MinifyToken(a: array<byte>, into0: nat, i: nat, n: nat, ghost s: seq<byte>) returns (into: nat, json: nat)
    requires Unread(a, i, n, s) && into0 <= i < n
    modifies a
    ensures json == TokenEnd(s, i)
    ensures json <= n ==> into <= json && Unread(a, json, n, s)
    ensures json <= n ==> a[..into] == if Kept(s, i) then old(a[..into0]) + s[i..json] else old(a[..into0])
  {
    ReadAt(a, i, n, s, i);
    ReadAt(a, i, n, s, i + 1);
    into, json := into0, i;
    if a[i] == SPACE || a[i] == TAB || a[i] == RETURN || a[i] == NEWLINE {
      json := i + 1;
    } else if a[i] == SLASH && a[i + 1] == SLASH {
      json := SkipLine(a, i, n, s);
    } else if a[i] == SLASH && a[i + 1] == STAR {
      json := SkipBlock(a, i, n, s);
      json := json + 2;
    } else if a[i] == QUOTE {
      into, json := CopyLiteral(a, into, i, n, s);
      return;
    } else {
      assert a[..into] + s[i..i] == a[..into];
      into, json := Move(a, into, i, n, s, a[..into], i);
      return;
    }
    if json <= n {
      UnreadLater(a, i, n, s, json);
    }
  }

  // within says that nothing past the terminator is read; where it would be, the model stops
  method Minify(a: array<byte>, n: nat) returns (into: nat, within: bool)
    requires n < a.Length && a[n] == 0 && 0 !in a[..n]
    modifies a
    ensures within <==> old(Closed(a[..n], 0))
    ensures within ==> into <= n && a[..into] == old(Minified(a[..n], 0)) && a[into] == 0
  {
    ghost var s := a[..n];
    var json := 0;
    into := 0;
    while a[json] != 0
      invariant into <= json && Unread(a, json, n, s)
      invariant Closed(s, json) <==> Closed(s, 0)
      invariant Closed(s, 0) ==> a[..into] + Minified(s, json) == Minified(s, 0)
      decreases n - json
    {
      ReadAt(a, json, n, s, json);
      ghost var start, done := json, a[..into];
      into, json := MinifyToken(a, into, json, n, s);
      if json > n {
        return into, false;
      }
      if Closed(s, start) {
        MinifiedStep(s, start, done, a[..into], json);
      }
    }
    ReadAt(a, json, n, s, json);
    a[into] := 0;
    within := true;
  }

  lemma MinifiedStep(s: seq<byte>, i: nat, done: seq<byte>, more: seq<byte>, end: nat)
    requires Closed(s, i) && At(s, i) != 0 && end == TokenEnd(s, i)
    requires end <= |s| ==> more == if Kept(s, i) then done + s[i..end] else done
    ensures end <= |s| && Closed(s, end) && more + Minified(s, end) == done + Minified(s, i)
  {
    if Kept(s, i) {
      Assoc(done, s[i..end], Minified(s, end));
    } else {
      assert [] + Minified(s, end) == Minified(s, end);
    }
  }

  // a quote, and a comment that only begins
  lemma UnclosedInputs()
    ensures !Closed([QUOTE], 0) && !Closed([SLASH, STAR], 0)
  {
    assert LiteralStop([QUOTE], 1) == 1;
    assert BlockStop([SLASH, STAR], 2) == 2;
  }
}
