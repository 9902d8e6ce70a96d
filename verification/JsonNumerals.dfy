// What a number means, and that parse_number reads it so.
module JsonNumerals {
  import opened Bytes
  import opened CString
  import opened JsonNumbers

  // ---- section 6 of RFC 8259

  datatype Power = NoPower | Power(letter: byte, sign: seq<byte>, digits: seq<byte>)

  datatype Numeral = Numeral(minus: bool, whole: seq<byte>, fraction: seq<byte>, power: Power)

  predicate AllDigits(t: seq<byte>) {
    forall k :: 0 <= k < |t| ==> 48 <= t[k] <= 57
  }

  // no leading zero, and digits in each part
  predicate WellNumbered(n: Numeral) {
    && Readable(n) && n.whole != [] && (n.whole[0] == 48 ==> |n.whole| == 1)
    && (n.power.Power? ==> n.power.digits != [])
  }

  predicate IsSign(t: seq<byte>) {
    t == [] || t == [43] || t == [45]
  }

  predicate ReadablePower(p: Power) {
    match p
    case NoPower => true
    case Power(letter, sign, digits) => letter in [101, 69] && IsSign(sign) && AllDigits(digits)
  }

  predicate ReadableWhole(whole: seq<byte>) {
    AllDigits(whole) && (|whole| > 1 && whole[0] == 48 ==> whole[1] != 48)
  }

  // what the parser takes besides: one leading zero, no digits before the point or behind the letter
  predicate Readable(n: Numeral) {
    ReadableWhole(n.whole) && AllDigits(n.fraction) && ReadablePower(n.power)
  }

  function FractionText(fraction: seq<byte>): seq<byte> {
    if fraction == [] then [] else [46] + fraction
  }

  function PowerText(p: Power): seq<byte> {
    match p
    case NoPower => []
    case Power(letter, sign, digits) => [letter] + (sign + digits)
  }

  function NumeralText(n: Numeral): seq<byte> {
    (if n.minus then [45] else []) + (n.whole + (FractionText(n.fraction) + PowerText(n.power)))
  }

  function DigitsValue(t: seq<byte>): nat
    requires AllDigits(t)
  {
    if t == [] then 0 else DigitsValue(t[..|t| - 1]) * 10 + (t[|t| - 1] - 48)
  }

  function TenTo(n: nat): (p: nat)
    ensures p > 0
  {
    if n == 0 then 1 else 10 * TenTo(n - 1)
  }

  // the tens to multiply with, and those to divide by
  function Raised(p: Power): nat
    requires ReadablePower(p)
  {
    if p.NoPower? || p.sign == [45] then 0 else DigitsValue(p.digits)
  }

  function Lowered(p: Power): nat
    requires ReadablePower(p)
  {
    if p.NoPower? || p.sign != [45] then 0 else DigitsValue(p.digits)
  }

  function Ratio(a: nat, b: nat): real {
    TenTo(a) as real / TenTo(b) as real
  }

  function Signed(minus: bool, n: int, factor: real): real {
    (if minus then -1.0 else 1.0) * n as real * factor
  }

  function NumeralValue(n: Numeral): real
    requires Readable(n)
  {
    Signed(n.minus, DigitsValue(n.whole + n.fraction), Ratio(Raised(n.power), |n.fraction| + Lowered(n.power)))
  }

  // ---- where a numeral ends

  predicate PowerEnds(p: Power, s: seq<byte>, j: nat) {
    match p
    case NoPower => At(s, j) !in [101, 69]
    case Power(_, sign, digits) => !IsDigit(At(s, j)) && (sign == [] && digits == [] ==> At(s, j) !in [43, 45])
  }

  predicate WholeEnds(whole: seq<byte>, c: byte) {
    if whole == [48] then !(49 <= c <= 57) else !IsDigit(c)
  }

  predicate MantissaEnds(whole: seq<byte>, fraction: seq<byte>, s: seq<byte>, p: nat) {
    if fraction == [] then WholeEnds(whole, At(s, p)) && !(At(s, p) == 46 && IsDigit(At(s, p + 1)))
    else !IsDigit(At(s, p))
  }

  // digits, and a point and digits, stand there and no byte more belongs to them
  ghost predicate MantissaAt(whole: seq<byte>, fraction: seq<byte>, s: seq<byte>, i: nat, p: nat) {
    && ReadableWhole(whole) && AllDigits(fraction) && p == i + |whole| + |FractionText(fraction)|
    && HasAt(s, i, whole) && HasAt(s, i + |whole|, FractionText(fraction)) && MantissaEnds(whole, fraction, s, p)
  }

  // and so does a power
  ghost predicate PowerAt(power: Power, s: seq<byte>, p: nat, j: nat) {
    ReadablePower(power) && Spans(s, p, j, PowerText(power)) && PowerEnds(power, s, j)
  }

  // ---- the parser on digits

  predicate EndsNumber(c: byte) {
    !IsDigit(c) && c != 46 && c != 101 && c != 69
  }

  lemma {:induction false} RunEnds(s: seq<byte>, i: nat, t: seq<byte>)
    requires HasAt(s, i, t) && AllDigits(t) && !IsDigit(At(s, i + |t|))
    ensures DigitsEnd(s, i) == i + |t|
    decreases |t|
  {
    if t != [] {
      assert t == [t[0]] + t[1..];
      HasSplit(s, i, [t[0]], t[1..]);
      HasByte(s, i, t, 0);
      RunEnds(s, i + 1, t[1..]);
    }
  }

  // digits read on behind others
  lemma {:induction false} DecimalOn(s: seq<byte>, i: nat, w: seq<byte>, t: seq<byte>)
    requires AllDigits(w) && AllDigits(t) && HasAt(s, i, t)
    ensures Decimal(s, i, i + |t|, DigitsValue(w)) == DigitsValue(w + t)
    decreases |t|
  {
    if t == [] {
      assert w + t == w;
    } else {
      var n := |t| - 1;
      assert t == t[..n] + [t[n]] && (w + t)[..|w| + n] == w + t[..n];
      HasSplit(s, i, t[..n], [t[n]]);
      HasByte(s, i, t, n);
      DecimalOn(s, i, w, t[..n]);
    }
  }

  lemma DecimalOf(s: seq<byte>, i: nat, t: seq<byte>)
    requires AllDigits(t) && HasAt(s, i, t)
    ensures Decimal(s, i, i + |t|, 0) == DigitsValue(t)
  {
    DecimalOn(s, i, [], t);
    assert [] + t == t;
  }

  // ---- the parts of a number

  lemma {:induction false} LeadingZero(t: seq<byte>)
    requires AllDigits(t)
    ensures DigitsValue([48] + t) == DigitsValue(t)
    decreases |t|
  {
    var z := [48] + t;
    if t == [] {
      assert z[..0] == [];
    } else {
      assert z[..|z| - 1] == [48] + t[..|t| - 1];
      LeadingZero(t[..|t| - 1]);
    }
  }

  // the digits in front of point or power
  lemma WholeParses(s: seq<byte>, i: nat, whole: seq<byte>)
    requires ReadableWhole(whole) && HasAt(s, i, whole) && WholeEnds(whole, At(s, i + |whole|))
    ensures var p := if At(s, i) == 48 then i + 1 else i;
      var point := if 49 <= At(s, p) <= 57 then DigitsEnd(s, p) else p;
      point == i + |whole| && Decimal(s, p, point, 0) == DigitsValue(whole)
  {
    if whole != [] {
      HasByte(s, i, whole, 0);
      if whole[0] == 48 {
        var rest := whole[1..];
        assert whole == [48] + rest;
        LeadingZero(rest);
        HasSplit(s, i, [48], rest);
        if rest != [] { OnesParse(s, i + 1, rest); }
      } else {
        OnesParse(s, i, whole);
      }
    }
  }

  lemma OnesParse(s: seq<byte>, p: nat, t: seq<byte>)
    requires AllDigits(t) && t != [] && t[0] != 48 && HasAt(s, p, t) && !IsDigit(At(s, p + |t|))
    ensures 49 <= At(s, p) <= 57 && DigitsEnd(s, p) == p + |t| && Decimal(s, p, p + |t|, 0) == DigitsValue(t)
  {
    HasByte(s, p, t, 0);
    RunEnds(s, p, t);
    DecimalOf(s, p, t);
  }

  lemma MantissaParses(s: seq<byte>, i: nat, whole: seq<byte>, fraction: seq<byte>, end: nat)
    requires ReadableWhole(whole) && AllDigits(fraction) && HasAt(s, i, whole)
    requires HasAt(s, i + |whole|, FractionText(fraction)) && end == i + |whole| + |FractionText(fraction)|
    requires MantissaEnds(whole, fraction, s, end)
    ensures ParseMantissa(s, i) == (DigitsValue(whole + fraction), -|fraction|, end)
  {
    if fraction == [] {
      assert whole + fraction == whole;
      WholeParses(s, i, whole);
    } else {
      FractionParses(s, i, whole, fraction, end);
    }
  }

  lemma FractionParses(s: seq<byte>, i: nat, whole: seq<byte>, fraction: seq<byte>, end: nat)
    requires ReadableWhole(whole) && AllDigits(fraction) && HasAt(s, i, whole) && fraction != []
    requires HasAt(s, i + |whole|, [46] + fraction) && end == i + |whole| + 1 + |fraction| && !IsDigit(At(s, end))
    ensures ParseMantissa(s, i) == (DigitsValue(whole + fraction), -|fraction|, end)
  {
    var point := i + |whole|;
    HasSplit(s, point, [46], fraction);
    HasByte(s, point, [46], 0);
    HasByte(s, point + 1, fraction, 0);
    RunEnds(s, point + 1, fraction);
    DecimalOn(s, point + 1, whole, fraction);
    WholeParses(s, i, whole);
  }

  lemma PowerParses(s: seq<byte>, p: nat, power: Power, end: nat)
    requires ReadablePower(power) && HasAt(s, p, PowerText(power)) && end == p + |PowerText(power)|
    requires PowerEnds(power, s, end)
    ensures ParseExponent(s, p) == (Raised(power) - Lowered(power), end)
    ensures power.Power? ==> At(s, p) in [101, 69]
  {
    if power.Power? {
      HasSplit(s, p, [power.letter], power.sign + power.digits);
      HasByte(s, p, [power.letter], 0);
      SignParses(s, p, power.letter, power.sign, power.digits, end, Raised(power) - Lowered(power));
    }
  }

  lemma SignParses(s: seq<byte>, p: nat, letter: byte, sign: seq<byte>, digits: seq<byte>, end: nat,
                   value: int)
    requires At(s, p) == letter && letter in [101, 69] && IsSign(sign) && AllDigits(digits)
    requires HasAt(s, p + 1, sign + digits) && end == p + 1 + |sign| + |digits| && !IsDigit(At(s, end))
    requires sign == [] && digits == [] ==> At(s, end) !in [43, 45]
    requires value == if sign == [45] then 0 - DigitsValue(digits) else DigitsValue(digits)
    ensures ParseExponent(s, p) == (value, end)
  {
    var q := p + 1 + |sign|;
    SignFound(s, p + 1, sign, digits);
    RunEnds(s, q, digits);
    DecimalOf(s, q, digits);
    ExponentIs(s, p, q, end);
  }

  lemma SignFound(s: seq<byte>, p: nat, sign: seq<byte>, digits: seq<byte>)
    requires IsSign(sign) && AllDigits(digits) && HasAt(s, p, sign + digits)
    requires sign == [] && digits == [] ==> At(s, p) !in [43, 45]
    ensures HasAt(s, p + |sign|, digits) && (sign == [45] <==> At(s, p) == 45)
    ensures |sign| == if At(s, p) in [43, 45] then 1 else 0
  {
    if sign + digits != [] { HasByte(s, p, sign + digits, 0); }
    HasSplit(s, p, sign, digits);
  }

  lemma ExponentIs(s: seq<byte>, p: nat, q: nat, end: nat)
    requires At(s, p) in [101, 69] && q == (if At(s, p + 1) in [43, 45] then p + 2 else p + 1) && DigitsEnd(s, q) == end
    ensures ParseExponent(s, p).1 == end
    ensures ParseExponent(s, p).0 == if At(s, p + 1) == 45 then 0 - Decimal(s, q, end, 0) else Decimal(s, q, end, 0)
  {
  }

  // ---- powers of ten

  lemma {:induction false} PowerUp(n: nat)
    ensures Pow10(n) == TenTo(n) as real
  {
    if n > 0 { PowerUp(n - 1); }
  }

  lemma {:induction false} PowerDown(a: nat, b: nat)
    ensures Pow10(a - b) * TenTo(b) as real == TenTo(a) as real
    decreases b
  {
    if b == 0 {
      PowerUp(a);
    } else {
      PowerDown(a, b - 1);
      PowerStep(a - b);
      assert TenTo(b) as real == 10.0 * TenTo(b - 1) as real;
    }
  }

  lemma PowerStep(n: int)
    ensures Pow10(n) * 10.0 == Pow10(n + 1)
  {
  }

  lemma Quotient(x: real, y: real, z: real)
    requires y > 0.0 && x * y == z
    ensures x == z / y
  {
  }

  lemma PowerIsRatio(a: nat, b: nat)
    ensures Pow10(a - b) == Ratio(a, b)
  {
    PowerDown(a, b);
    Quotient(Pow10(a - b), TenTo(b) as real, TenTo(a) as real);
  }

  lemma ScaledIs(minus: bool, n: int, scale: int)
    ensures Scaled(minus, n, scale) == Signed(minus, n, Pow10(scale))
  {
  }

  // ---- a number is read with its value

  lemma NumeralParses(s: seq<byte>, i: nat, j: nat, n: Numeral)
    requires WellNumbered(n) && Spans(s, i, j, NumeralText(n)) && EndsNumber(At(s, j))
    ensures At(s, i) == 45 || IsDigit(At(s, i))
    ensures ParseNumber(s, i) == (NumeralValue(n), j)
  {
    var start := SignPasses(s, i, j, n);
    var p := ThreeParts(s, start, j, n.whole, FractionText(n.fraction), PowerText(n.power));
    PowerStarts(s, p, j, n.power);
    PartsParse(s, i, start, p, j, n);
  }

  lemma SignPasses(s: seq<byte>, i: nat, j: nat, n: Numeral) returns (start: nat)
    requires WellNumbered(n) && Spans(s, i, j, NumeralText(n))
    ensures start == (if n.minus then i + 1 else i) && At(s, i) == if n.minus then 45 else n.whole[0]
    ensures Spans(s, start, j, n.whole + (FractionText(n.fraction) + PowerText(n.power)))
  {
    var rest := n.whole + (FractionText(n.fraction) + PowerText(n.power));
    HasSplit(s, i, if n.minus then [45] else [], rest);
    HasByte(s, i, NumeralText(n), 0);
    start := if n.minus then i + 1 else i;
  }

  lemma ThreeParts(s: seq<byte>, i: nat, j: nat, a: seq<byte>, b: seq<byte>, c: seq<byte>) returns (p: nat)
    requires Spans(s, i, j, a + (b + c))
    ensures HasAt(s, i, a) && HasAt(s, i + |a|, b) && p == i + |a| + |b| && Spans(s, p, j, c)
  {
    p := i + |a| + |b|;
    HasSplit(s, i, a, b + c);
    HasSplit(s, i + |a|, b, c);
  }

  // a byte that ends the number, or the letter of its power, stands behind the digits
  lemma PowerStarts(s: seq<byte>, p: nat, j: nat, power: Power)
    requires ReadablePower(power) && Spans(s, p, j, PowerText(power)) && EndsNumber(At(s, j))
    ensures !IsDigit(At(s, p)) && At(s, p) != 46
  {
    if power.Power? { HasByte(s, p, PowerText(power), 0); }
  }

  // the power of ten as the parser counts it
  function Scale(n: Numeral): int
    requires ReadablePower(n.power)
  {
    -|n.fraction| + (Raised(n.power) - Lowered(n.power))
  }

  lemma PartsJoin(s: seq<byte>, i: nat, start: nat, p: nat, minus: bool, m: int, scale: int, j: nat,
                  d: real)
    requires start == (if minus then i + 1 else i) && (minus <==> At(s, i) == 45)
    requires ParseMantissa(s, start).0 == m && ParseMantissa(s, start).2 == p && ParseExponent(s, p).1 == j
    requires ParseMantissa(s, start).1 + ParseExponent(s, p).0 == scale
    requires Scaled(minus, m, scale) == d
    ensures ParseNumber(s, i) == (d, j)
  {
  }

  lemma PartsParse(s: seq<byte>, i: nat, start: nat, p: nat, j: nat, n: Numeral)
    requires start == (if n.minus then i + 1 else i) && (n.minus <==> At(s, i) == 45)
    requires MantissaAt(n.whole, n.fraction, s, start, p) && PowerAt(n.power, s, p, j)
    ensures Readable(n) && ParseNumber(s, i) == (NumeralValue(n), j)
  {
    MantissaParses(s, start, n.whole, n.fraction, p);
    PowerParses(s, p, n.power, j);
    ValueIs(n);
    PartsJoin(s, i, start, p, n.minus, DigitsValue(n.whole + n.fraction), Scale(n), j, NumeralValue(n));
  }

  lemma ValueIs(n: Numeral)
    requires Readable(n)
    ensures Scaled(n.minus, DigitsValue(n.whole + n.fraction), Scale(n)) == NumeralValue(n)
  {
    PowerIsRatio(Raised(n.power), |n.fraction| + Lowered(n.power));
    assert Scale(n) == Raised(n.power) - (|n.fraction| + Lowered(n.power));
    ScaledIs(n.minus, DigitsValue(n.whole + n.fraction), Scale(n));
  }

  // ---- every text begins with such a numeral, if only an empty one

  // a run of digits up to a byte that is none
  lemma {:induction false} RunFrom(s: seq<byte>, i: nat) returns (t: seq<byte>)
    ensures AllDigits(t) && HasAt(s, i, t) && !IsDigit(At(s, i + |t|))
    decreases |s| - i
  {
    if IsDigit(At(s, i)) {
      t := RunFrom(s, i + 1);
      t := [At(s, i)] + t;
    } else {
      t := [];
    }
  }

  lemma WholeFrom(s: seq<byte>, i: nat) returns (whole: seq<byte>)
    ensures ReadableWhole(whole) && HasAt(s, i, whole) && WholeEnds(whole, At(s, i + |whole|))
  {
    if At(s, i) == 48 {
      whole := [48];
      if 49 <= At(s, i + 1) <= 57 {
        var rest := RunFrom(s, i + 1);
        whole := [48] + rest;
      }
    } else {
      whole := RunFrom(s, i);
    }
  }

  lemma FractionFrom(s: seq<byte>, p: nat) returns (fraction: seq<byte>)
    ensures AllDigits(fraction) && HasAt(s, p, FractionText(fraction))
    ensures if fraction == [] then !(At(s, p) == 46 && IsDigit(At(s, p + 1)))
            else !IsDigit(At(s, p + |FractionText(fraction)|)) && At(s, p) == 46
  {
    fraction := [];
    if At(s, p) == 46 && IsDigit(At(s, p + 1)) {
      fraction := RunFrom(s, p + 1);
      HasSplit(s, p, [46], fraction);
    }
  }

  lemma PowerFrom(s: seq<byte>, p: nat) returns (power: Power, j: nat)
    ensures PowerAt(power, s, p, j)
  {
    power, j := NoPower, p;
    if At(s, p) in [101, 69] {
      var sign := if At(s, p + 1) in [43, 45] then [At(s, p + 1)] else [];
      var digits := RunFrom(s, p + 1 + |sign|);
      HasSplit(s, p + 1, sign, digits);
      HasSplit(s, p, [At(s, p)], sign + digits);
      power, j := Power(At(s, p), sign, digits), p + 1 + |sign| + |digits|;
    }
  }

  lemma MantissaFrom(s: seq<byte>, i: nat) returns (whole: seq<byte>, fraction: seq<byte>, p: nat)
    ensures MantissaAt(whole, fraction, s, i, p)
  {
    whole := WholeFrom(s, i);
    fraction := FractionFrom(s, i + |whole|);
    p := i + |whole| + |FractionText(fraction)|;
  }

  // sign, digits, point with digits and power stand one behind the other from i to j, and mean d
  ghost predicate Reads(n: Numeral, d: real, s: seq<byte>, i: nat, j: nat) {
    && Readable(n) && NumeralValue(n) == d && (n.minus <==> At(s, i) == 45)
    && exists p :: MantissaAt(n.whole, n.fraction, s, if n.minus then i + 1 else i, p) && PowerAt(n.power, s, p, j)
  }

  lemma NumeralFrom(s: seq<byte>, i: nat) returns (n: Numeral, d: real, j: nat)
    ensures Reads(n, d, s, i, j)
  {
    var minus := At(s, i) == 45;
    var whole, fraction, p := MantissaFrom(s, if minus then i + 1 else i);
    var power;
    power, j := PowerFrom(s, p);
    n := Numeral(minus, whole, fraction, power);
    assert MantissaAt(n.whole, n.fraction, s, if n.minus then i + 1 else i, p) && PowerAt(n.power, s, p, j);
    d := NumeralValue(n);
  }

  lemma ReadsParse(n: Numeral, d: real, s: seq<byte>, i: nat, j: nat)
    requires Reads(n, d, s, i, j)
    ensures ParseNumber(s, i) == (d, j)
  {
    var start := if n.minus then i + 1 else i;
    var p :| MantissaAt(n.whole, n.fraction, s, start, p) && PowerAt(n.power, s, p, j);
    PartsParse(s, i, start, p, j, n);
  }

  // so the parser reads, from any place in any text, exactly that
  lemma NumberExactly(s: seq<byte>, i: nat, d: real, j: nat)
    ensures ParseNumber(s, i) == (d, j) <==> exists n :: Reads(n, d, s, i, j)
  {
    if n :| Reads(n, d, s, i, j) { ReadsParse(n, d, s, i, j); }
    var n, x, e := NumeralFrom(s, i);
    ReadsParse(n, x, s, i, e);
  }
}
