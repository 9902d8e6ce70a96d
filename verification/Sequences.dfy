// Laws of sequences: concatenation, and the elements outside or inside a set.
module Sequences {
  ghost function Without<T>(s: seq<T>, x: T): seq<T> {
    if s == [] then [] else if s[0] == x then Without(s[1..], x) else [s[0]] + Without(s[1..], x)
  }

  lemma {:induction false} WithoutElements<T>(s: seq<T>, x: T)
    ensures forall y {:trigger y in Without(s, x)} {:trigger y in s} :: y in Without(s, x) <==> y in s && y != x
  {
    if s != [] { WithoutElements(s[1..], x); }
  }

  lemma {:induction false} WithoutMember<T>(s: seq<T>, x: T, j: nat)
    requires j < |Without(s, x)|
    ensures Without(s, x)[j] in s && Without(s, x)[j] != x
  {
    if s[0] == x {
      WithoutMember(s[1..], x, j);
    } else if j > 0 {
      WithoutMember(s[1..], x, j - 1);
    }
  }

  lemma {:induction false} WithoutDistinct<T>(s: seq<T>, x: T)
    requires Distinct(s)
    ensures Distinct(Without(s, x))
  {
    if s != [] {
      assert Distinct(s[1..]);
      WithoutDistinct(s[1..], x);
      WithoutElements(s[1..], x);
      assert s[0] !in s[1..];
    }
  }

  lemma {:induction false} WithoutAbsent<T>(s: seq<T>, x: T)
    requires x !in s
    ensures Without(s, x) == s
  {
    if s != [] { WithoutAbsent(s[1..], x); }
  }

  lemma {:induction false} WithoutAt<T>(a: seq<T>, x: T, b: seq<T>)
    requires x !in a && x !in b
    ensures Without(a + [x] + b, x) == a + b
  {
    if a == [] {
      assert ([] + [x] + b)[1..] == b;
      WithoutAbsent(b, x);
    } else {
      assert (a + [x] + b)[1..] == a[1..] + [x] + b;
      WithoutAt(a[1..], x, b);
      assert a + b == [a[0]] + (a[1..] + b);
    }
  }

  lemma Assoc<T>(a: seq<T>, b: seq<T>, c: seq<T>)
    ensures a + b + c == a + (b + c)
  {
  }

  lemma AssocFour<T>(z: seq<T>, a: seq<T>, b: seq<T>, c: seq<T>, d: seq<T>)
    ensures z + a + b + c + d == z + (a + b + c + d)
  {
    Assoc(z, a, b);
    Assoc(z, a + b, c);
    Assoc(z, a + b + c, d);
  }

  lemma AssocFive<T>(z: seq<T>, a: seq<T>, b: seq<T>, c: seq<T>, d: seq<T>, e: seq<T>)
    ensures z + a + b + c + d + e == z + (a + b + c + d + e)
  {
    AssocFour(z, a, b, c, d);
    Assoc(z, a + b + c + d, e);
  }

  lemma NestFive<T>(a: seq<T>, b: seq<T>, c: seq<T>, d: seq<T>, e: seq<T>, z: seq<T>)
    ensures a + b + c + d + e + z == a + (b + (c + (d + (e + z))))
  {
    Assoc(a + b + c + d, e, z);
    Assoc(a + b + c, d, e + z);
    Assoc(a + b, c, d + (e + z));
    Assoc(a, b, c + (d + (e + z)));
  }

  lemma WithoutMiddle<T>(a: seq<T>, b: seq<T>, x: T, c: seq<T>, d: seq<T>)
    requires x !in a && x !in b && x !in c && x !in d
    ensures Without(a + (b + [x] + c) + d, x) == a + (b + c) + d
  {
    Assoc(a, b + [x] + c, d);
    Assoc(b + [x], c, d);
    Assoc(a, b, [x]);
    Assoc(a, b + [x], c + d);
    WithoutAt(a + b, x, c + d);
    Assoc(a, b, c + d);
    Assoc(b, c, d);
    Assoc(a, b + c, d);
  }

  ghost predicate Distinct<T>(s: seq<T>) {
    forall i, j :: 0 <= i < j < |s| ==> s[i] != s[j]
  }

  lemma WithoutIndex<T>(s: seq<T>, k: nat)
    requires Distinct(s) && k < |s|
    ensures Without(s, s[k]) == s[..k] + s[k + 1..]
  {
    assert s == s[..k] + [s[k]] + s[k + 1..];
    WithoutAt(s[..k], s[k], s[k + 1..]);
  }

  lemma {:induction false} DistinctSize<T>(s: seq<T>)
    requires Distinct(s)
    ensures |set x | x in s| == |s|
  {
    if s != [] {
      var n := |s| - 1;
      DistinctSize(s[..n]);
      assert (set x | x in s) == (set x | x in s[..n]) + {s[n]};
    }
  }

  // the elements of s outside, and inside, a set, in their order
  ghost function Minus<T>(s: seq<T>, out: set<T>): seq<T> {
    if s == [] then [] else (if s[0] in out then [] else [s[0]]) + Minus(s[1..], out)
  }

  ghost function Only<T>(s: seq<T>, out: set<T>): seq<T> {
    if s == [] then [] else (if s[0] in out then [s[0]] else []) + Only(s[1..], out)
  }

  lemma {:induction false} MinusSnoc<T>(s: seq<T>, x: T, out: set<T>)
    ensures Minus(s + [x], out) == Minus(s, out) + if x in out then [] else [x]
    ensures Only(s + [x], out) == Only(s, out) + if x in out then [x] else []
  {
    if s == [] {
      assert s + [x] == [x];
    } else {
      assert (s + [x])[1..] == s[1..] + [x];
      MinusSnoc(s[1..], x, out);
    }
  }

  lemma {:induction false} MinusMember<T>(s: seq<T>, out: set<T>, x: T)
    ensures x in Minus(s, out) <==> x in s && x !in out
  {
    if s != [] { MinusMember(s[1..], out, x); }
  }

  lemma {:induction false} WithoutMinus<T>(s: seq<T>, out: set<T>, x: T)
    ensures Without(Minus(s, out), x) == Minus(s, out + {x})
  {
    if s != [] {
      WithoutMinus(s[1..], out, x);
      var r := Minus(s[1..], out);
      assert ([s[0]] + r)[1..] == r && [] + r == r;
    }
  }

  lemma {:induction false} MinusNothing<T>(s: seq<T>, out: set<T>)
    requires forall x :: x in s ==> x !in out
    ensures Minus(s, out) == s
  {
    if s != [] { MinusNothing(s[1..], out); }
  }
}
