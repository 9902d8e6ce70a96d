// Texts that end at a NUL, and what stands where in them.
module CString {
  import opened Bytes

  // the text of a C string as it is read: past its last byte, a NUL
  function At(s: seq<byte>, i: nat): byte {
    if i < |s| then s[i] else 0
  }

  // t stands in s from position i
  predicate HasAt(s: seq<byte>, i: nat, t: seq<byte>)
    decreases |t|
  {
    t == [] || (i < |s| && s[i] == t[0] && HasAt(s, i + 1, t[1..]))
  }

  lemma {:induction false} HasByte(s: seq<byte>, i: nat, t: seq<byte>, k: nat)
    requires HasAt(s, i, t) && k < |t|
    ensures i + k < |s| && At(s, i + k) == t[k]
    decreases |t|
  {
    if k > 0 {
      HasByte(s, i + 1, t[1..], k - 1);
    }
  }

  lemma {:induction false} HasSplit(s: seq<byte>, i: nat, a: seq<byte>, b: seq<byte>)
    ensures HasAt(s, i, a + b) <==> HasAt(s, i, a) && HasAt(s, i + |a|, b)
    decreases |a|
  {
    if a == [] {
      assert a + b == b;
    } else {
      HasSplit(s, i + 1, a[1..], b);
      assert (a + b)[1..] == a[1..] + b;
    }
  }

  lemma {:induction false} HasSlice(s: seq<byte>, i: nat, t: seq<byte>)
    requires i <= |s|
    ensures HasAt(s, i, t) <==> i + |t| <= |s| && s[i..i + |t|] == t
    decreases |t|
  {
    if t != [] && i < |s| {
      HasSlice(s, i + 1, t[1..]);
      assert t == [t[0]] + t[1..];
      if i + |t| <= |s| {
        assert s[i..i + |t|] == [s[i]] + s[i + 1..i + |t|];
      }
    }
  }

  // t is the text of s from i to j
  predicate Spans(s: seq<byte>, i: nat, j: nat, t: seq<byte>) {
    HasAt(s, i, t) && j == i + |t|
  }

  lemma SpanSplit(s: seq<byte>, i: nat, k: nat, a: seq<byte>, b: seq<byte>) returns (j: nat)
    requires Spans(s, i, k, a + b)
    ensures Spans(s, i, j, a) && Spans(s, j, k, b)
  {
    HasSplit(s, i, a, b);
    j := i + |a|;
  }

  lemma SpanFive(s: seq<byte>, i: nat, k: nat, a: seq<byte>, b: seq<byte>, c: seq<byte>, d: seq<byte>, e: seq<byte>)
    returns (p: nat, q: nat, r: nat, t: nat)
    requires Spans(s, i, k, a + b + c + d + e)
    ensures Spans(s, i, p, a) && Spans(s, p, q, b) && Spans(s, q, r, c) && Spans(s, r, t, d) && Spans(s, t, k, e)
  {
    t := SpanSplit(s, i, k, a + b + c + d, e);
    r := SpanSplit(s, i, t, a + b + c, d);
    q := SpanSplit(s, i, r, a + b, c);
    p := SpanSplit(s, i, q, a, b);
  }

  lemma SpanStarts(s: seq<byte>, i: nat, j: nat, t: seq<byte>)
    requires Spans(s, i, j, t) && t != []
    ensures i < j && At(s, i) == t[0]
  {
    HasByte(s, i, t, 0);
  }
}
