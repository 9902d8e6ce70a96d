// Powers of two, bitwise operators and shifts on unsigned integers, and modular arithmetic.
module Arithmetic {
  const WORD: nat := 0x1_0000_0000

  ghost function Pow2(n: nat): (p: nat)
    ensures p > 0
  {
    if n == 0 then 1 else 2 * Pow2(n - 1)
  }

  lemma {:induction false} Pow2Grows(k: nat, n: nat)
    requires k <= n
    ensures Pow2(k) <= Pow2(n)
  {
    if k < n { Pow2Grows(k, n - 1); }
  }

  // bitwise and of two unsigned integers
  function BitAnd(x: nat, y: nat): nat {
    if x == 0 || y == 0 then 0 else 2 * BitAnd(x / 2, y / 2) + (if x % 2 + y % 2 == 2 then 1 else 0)
  }

  // bitwise or of two unsigned integers
  function BitOr(x: nat, y: nat): nat {
    if x == 0 then y else if y == 0 then x else 2 * BitOr(x / 2, y / 2) + (if x % 2 + y % 2 == 0 then 0 else 1)
  }

  // the bits of a number above k low bits
  ghost function Join(high: nat, k: nat, low: nat): nat {
    high * Pow2(k) + low
  }

  lemma JoinHalves(high: nat, k: nat, low: nat)
    requires k > 0
    ensures Join(high, k, low) / 2 == Join(high, k - 1, low / 2) && Join(high, k, low) % 2 == low % 2
  {
    assert high * Pow2(k) == 2 * (high * Pow2(k - 1));
  }

  // high and low bits are combined apart
  lemma {:induction false} AndSplit(a: nat, b: nat, c: nat, d: nat, k: nat)
    requires b < Pow2(k) && d < Pow2(k)
    ensures BitAnd(Join(a, k, b), Join(c, k, d)) == Join(BitAnd(a, c), k, BitAnd(b, d))
  {
    if k > 0 {
      AndSplit(a, b / 2, c, d / 2, k - 1);
      JoinHalves(a, k, b);
      JoinHalves(c, k, d);
      JoinHalves(BitAnd(a, c), k, BitAnd(b, d));
      AndHalves(Join(a, k, b), Join(c, k, d));
      AndHalves(b, d);
    }
  }

  lemma {:induction false} OrSplit(a: nat, b: nat, c: nat, d: nat, k: nat)
    requires b < Pow2(k) && d < Pow2(k)
    ensures BitOr(Join(a, k, b), Join(c, k, d)) == Join(BitOr(a, c), k, BitOr(b, d))
  {
    if k > 0 {
      OrSplit(a, b / 2, c, d / 2, k - 1);
      JoinHalves(a, k, b);
      JoinHalves(c, k, d);
      JoinHalves(BitOr(a, c), k, BitOr(b, d));
      OrHalves(Join(a, k, b), Join(c, k, d));
      OrHalves(b, d);
    }
  }

  lemma AndHalves(x: nat, y: nat)
    ensures BitAnd(x, y) == 2 * BitAnd(x / 2, y / 2) + if x % 2 + y % 2 == 2 then 1 else 0
  {
    BitAndZero(x / 2);
  }

  lemma OrHalves(x: nat, y: nat)
    ensures BitOr(x, y) / 2 == BitOr(x / 2, y / 2)
    ensures BitOr(x, y) % 2 == if x % 2 + y % 2 == 0 then 0 else 1
  {
  }

  lemma {:induction false} OrAssoc(x: nat, y: nat, z: nat)
    ensures BitOr(BitOr(x, y), z) == BitOr(x, BitOr(y, z))
  {
    if x != 0 && y != 0 && z != 0 {
      OrAssoc(x / 2, y / 2, z / 2);
      OrHalves(x, y);
      OrHalves(y, z);
      OrHalves(BitOr(x, y), z);
      OrHalves(x, BitOr(y, z));
      assert BitOr(x, y) / 2 == BitOr(x / 2, y / 2);
      assert BitOr(y, z) / 2 == BitOr(y / 2, z / 2);
    }
  }

  // right shift
  function Shr(x: nat, k: nat): nat
    decreases k
  {
    if k == 0 then x else Shr(x / 2, k - 1)
  }

  // x | x >> 1 | ... | x >> (m - 1)
  ghost function Smear(x: nat, m: nat): nat
    decreases m
  {
    if m == 0 then 0 else BitOr(x, Smear(x / 2, m - 1))
  }

  // x with every bit below its highest one set
  ghost function Fill(x: nat): nat {
    if x == 0 then 0 else 2 * Fill(x / 2) + 1
  }

  lemma {:induction false} SmearHalf(x: nat, m: nat)
    ensures Smear(x, m) / 2 == Smear(x / 2, m)
    decreases m
  {
    if m > 0 {
      SmearHalf(x / 2, m - 1);
      OrHalves(x, Smear(x / 2, m - 1));
    }
  }

  // one step of the smear doubles its width
  lemma {:induction false} SmearMore(x: nat, a: nat, b: nat)
    ensures Smear(x, a + b) == BitOr(Smear(x, a), Shr(Smear(x, b), a))
    decreases a
  {
    if a > 0 {
      SmearMore(x / 2, a - 1, b);
      SmearHalf(x, b);
      OrAssoc(x, Smear(x / 2, a - 1), Shr(Smear(x / 2, b), a - 1));
    }
  }

  lemma {:induction false} OrFill(x: nat)
    ensures BitOr(x, Fill(x / 2)) == Fill(x)
  {
    if x > 1 {
      OrFill(x / 2);
      OrHalves(x, Fill(x / 2));
    }
  }

  lemma {:induction false} SmearAll(x: nat, m: nat)
    requires x < Pow2(m)
    ensures Smear(x, m) == Fill(x)
    decreases m
  {
    if m > 0 {
      SmearAll(x / 2, m - 1);
      OrFill(x);
    }
  }

  // the number after a filled one is the least power of two above
  lemma {:induction false} FillIsTight(x: nat) returns (n: nat)
    ensures Fill(x) + 1 == Pow2(n) && x <= Fill(x) && (x > 0 ==> Fill(x) < 2 * x)
  {
    if x == 0 {
      n := 0;
    } else {
      n := FillIsTight(x / 2);
      n := n + 1;
    }
  }

  lemma {:induction false} BitAndZero(x: nat)
    ensures BitAnd(x, 0) == 0
  {
  }

  lemma MulAtLeast(s: int, d: int)
    requires s > 0 && d >= 1
    ensures s * d >= s
  {
    assert s * d == s * (d - 1) + s;
  }

  lemma MulSub(s: int, a: int, b: int)
    ensures s * (a - b) == s * a - s * b
  {
  }

  lemma DivModUnique(a: int, s: int, q: int, r: int)
    requires s > 0 && a == s * q + r && 0 <= r < s
    ensures a / s == q && a % s == r
  {
    var q', r' := a / s, a % s;
    assert a == s * q' + r';
    MulSub(s, q, q');
    MulSub(s, q', q);
    if q > q' { MulAtLeast(s, q - q'); }
    if q < q' { MulAtLeast(s, q' - q); }
  }

  lemma ModDouble(x: nat, s: nat)
    requires s > 0
    ensures x % (2 * s) == 2 * ((x / 2) % s) + x % 2
  {
    var h := x / 2;
    assert x == 2 * h + x % 2;
    assert h == s * (h / s) + h % s;
    assert x == (2 * s) * (h / s) + (2 * (h % s) + x % 2);
    DivModUnique(x, 2 * s, h / s, 2 * (h % s) + x % 2);
  }

  // masking with size - 1 is reduction modulo size, for a power of two
  lemma {:induction false} MaskIsMod(x: nat, k: nat)
    ensures Pow2(k) > 0 && BitAnd(x, Pow2(k) - 1) == x % Pow2(k)
  {
    if k == 0 {
      BitAndZero(x);
    } else {
      var s := Pow2(k - 1);
      MaskIsMod(x / 2, k - 1);
      ModDouble(x, s);
      assert (2 * s - 1) / 2 == s - 1 && (2 * s - 1) % 2 == 1;
      if x == 0 {
        assert x % (2 * s) == 0;
      }
    }
  }

  // m bits of x, above k others; s and t are the powers
  lemma MaskField(x: nat, high: nat, low: nat, k: nat, s: nat, m: nat, t: nat, mask: nat)
    requires s == Pow2(k) && t == Pow2(m) && low < s && x == high * s + low && mask == (t - 1) * s
    ensures BitAnd(x, mask) == high % t * s
  {
    AndSplit(high, low, t - 1, 0, k);
    MaskIsMod(high, m);
    BitAndZero(low);
  }

  // one bit of x, above k others
  lemma BitIsSet(x: nat, high: nat, low: nat, k: nat, s: nat)
    requires s == Pow2(k) && low < s && x == high * s + low
    ensures BitAnd(x, s) != 0 <==> high % 2 == 1
  {
    assert Pow2(1) == 2;
    MaskField(x, high, low, k, s, 1, 2, s);
  }

  lemma ModSmall(x: nat, s: nat)
    requires x < s
    ensures x % s == x
  {
  }

  lemma ModAdd(a: int, d: int, s: int)
    requires s > 0 && 0 <= d <= s
    ensures (a + d) % s == if a % s + d < s then a % s + d else a % s + d - s
  {
    var q, r := a / s, a % s;
    if r + d < s {
      DivModUnique(a + d, s, q, r + d);
    } else {
      assert s * (q + 1) == s * q + s;
      DivModUnique(a + d, s, q + 1, r + d - s);
    }
  }

  lemma {:induction false} Pow2Divides(k: nat, n: nat)
    requires k <= n
    ensures Pow2(k) > 0 && Pow2(n) == Pow2(k) * Pow2(n - k)
  {
    if k == 0 {
      assert Pow2(k) == 1;
    } else {
      Pow2Divides(k - 1, n - 1);
      assert 2 * (Pow2(k - 1) * Pow2(n - k)) == (2 * Pow2(k - 1)) * Pow2(n - k);
    }
  }

  lemma Pow2Word()
    ensures Pow2(32) == WORD
  {
    assert Pow2(8) == 256;
    Pow2Divides(8, 16);
    assert Pow2(16) == 0x1_0000;
    Pow2Divides(16, 32);
  }

  lemma ModShift(x: int, s: int, m: int)
    requires s > 0
    ensures (x - s * m) % s == x % s
  {
    MulSub(s, x / s, m);
    DivModUnique(x - s * m, s, x / s - m, x % s);
  }

  // the 32-bit wrap of a counter is invisible modulo a power of two
  lemma WrapInvisible(x: int, k: nat)
    requires k <= 32
    ensures Pow2(k) > 0 && (x - WORD) % Pow2(k) == x % Pow2(k)
  {
    Pow2Word();
    Pow2Divides(k, 32);
    ModShift(x, Pow2(k), Pow2(32 - k));
  }
}
