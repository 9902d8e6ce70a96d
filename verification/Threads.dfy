// Counting threads by what they are doing.
module Threads {
  function Total<T>(s: seq<T>, weight: T -> nat): nat {
    if s == [] then 0 else weight(s[0]) + Total(s[1..], weight)
  }

  lemma {:induction false} TotalUpdate<T>(s: seq<T>, t: nat, x: T, weight: T -> nat)
    requires t < |s|
    ensures Total(s[t := x], weight) + weight(s[t]) == Total(s, weight) + weight(x)
  {
    if t == 0 {
      assert s[t := x][1..] == s[1..];
    } else {
      assert s[t := x][1..] == s[1..][t - 1 := x];
      TotalUpdate(s[1..], t - 1, x, weight);
    }
  }

  lemma {:induction false} TotalAtLeast<T>(s: seq<T>, t: nat, weight: T -> nat)
    requires t < |s|
    ensures weight(s[t]) <= Total(s, weight)
  {
    if t > 0 {
      TotalAtLeast(s[1..], t - 1, weight);
    }
  }

  lemma {:induction false} TotalOfTwo<T>(s: seq<T>, t: nat, u: nat, weight: T -> nat)
    requires t < u < |s|
    ensures weight(s[t]) + weight(s[u]) <= Total(s, weight)
  {
    if t > 0 {
      TotalOfTwo(s[1..], t - 1, u - 1, weight);
    } else {
      TotalAtLeast(s[1..], u - 1, weight);
    }
  }

  lemma {:induction false} TotalZero<T>(s: seq<T>, weight: T -> nat)
    requires forall t :: 0 <= t < |s| ==> weight(s[t]) == 0
    ensures Total(s, weight) == 0
  {
    if s != [] {
      TotalZero(s[1..], weight);
    }
  }

  // a thread of some weight, when the total is positive
  lemma {:induction false} TotalPositive<T>(s: seq<T>, weight: T -> nat) returns (t: nat)
    requires Total(s, weight) > 0
    ensures t < |s| && weight(s[t]) > 0
  {
    if weight(s[0]) > 0 {
      t := 0;
    } else {
      t := TotalPositive(s[1..], weight);
      t := t + 1;
    }
  }
}
