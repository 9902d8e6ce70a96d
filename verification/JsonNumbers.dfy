// parse_number.
module JsonNumbers {
  import opened Bytes
  import opened CString
  import opened Json

  predicate IsDigit(c: byte) {
    48 <= c <= 57
  }

  // where a run of digits from i ends
  function DigitsEnd(s: seq<byte>, i: nat): (j: nat)
    ensures i <= j && (IsDigit(At(s, i)) ==> i < j)
    decreases |s| - i
  {
    if IsDigit(At(s, i)) then DigitsEnd(s, i + 1) else i
  }

  // the decimal value of n0 followed by the digits of s[i..j]
  function Decimal(s: seq<byte>, i: nat, j: nat, n0: int): int
    requires i <= j
    decreases j - i
  {
    if i == j then n0 else Decimal(s, i, j - 1, n0) * 10 + (At(s, j - 1) - 48)
  }

  function Pow10(n: int): real
    decreases if n < 0 then -n else n
  {
    if n == 0 then 1.0 else if n > 0 then Pow10(n - 1) * 10.0 else Pow10(n + 1) / 10.0
  }

  // [-] [0] [digits from 1 to 9 on] [. digits] [e [+-] digits]
  function ParseNumber(s: seq<byte>, i: nat): (r: (real, nat))
    ensures i <= r.1 && (At(s, i) == MINUS || IsDigit(At(s, i)) ==> i < r.1)
  {
    var (n, scale, p) := ParseMantissa(s, if At(s, i) == MINUS then i + 1 else i);
    var (subscale, end) := ParseExponent(s, p);
    (Scaled(At(s, i) == MINUS, n, scale + subscale), end)
  }

  function Scaled(negative: bool, n: int, scale: int): real {
    (if negative then -1.0 else 1.0) * n as real * Pow10(scale)
  }

  function ParseMantissa(s: seq<byte>, i: nat): (r: (int, int, nat))
    ensures i <= r.2 && (IsDigit(At(s, i)) ==> i < r.2)
  {
    var p := if At(s, i) == ZERO then i + 1 else i;
    var point := if 49 <= At(s, p) <= 57 then DigitsEnd(s, p) else p;
    var whole := Decimal(s, p, point, 0);
    if At(s, point) == DOT && IsDigit(At(s, point + 1)) then
      var end := DigitsEnd(s, point + 1);
      (Decimal(s, point + 1, end, whole), point + 1 - end, end)
    else
      (whole, 0, point)
  }

  function ParseExponent(s: seq<byte>, i: nat): (r: (int, nat))
    ensures i <= r.1
  {
    if At(s, i) == 101 || At(s, i) == 69 then
      var p := if At(s, i + 1) == PLUS || At(s, i + 1) == MINUS then i + 2 else i + 1;
      var end := DigitsEnd(s, p);
      var n := Decimal(s, p, end, 0);
      (if At(s, i + 1) == MINUS then -n else n, end)
    else
      (0, i)
  }

  // the digits of a run, one by one
  method DigitRun(s: seq<byte>, i: nat, n0: int) returns (n: int, num: nat)
    ensures num == DigitsEnd(s, i) && n == Decimal(s, i, num, n0)
  {
    n, num := n0, i;
    while IsDigit(At(s, num))
      invariant i <= num && DigitsEnd(s, num) == DigitsEnd(s, i)
      invariant n == Decimal(s, i, num, n0)
      decreases |s| - num
    {
      n, num := n * 10 + (At(s, num) - 48), num + 1;
    }
  }

  method Exponent(s: seq<byte>, i: nat) returns (subscale: int, num: nat)
    ensures (subscale, num) == ParseExponent(s, i)
  {
    var signsubscale := 1;
    subscale, num := 0, i;
    if At(s, num) == 101 || At(s, num) == 69 {
      num := num + 1;
      if At(s, num) == PLUS {
        num := num + 1;
      } else if At(s, num) == MINUS {
        signsubscale, num := -1, num + 1;
      }
      subscale, num := DigitRun(s, num, 0);
    }
    subscale := subscale * signsubscale;
  }

  method Mantissa(s: seq<byte>, i: nat) returns (n: int, scale: int, num: nat)
    ensures (n, scale, num) == ParseMantissa(s, i)
  {
    n, scale, num := 0, 0, i;
    if At(s, num) == ZERO {
      num := num + 1;
    }
    if 49 <= At(s, num) <= 57 {
      n, num := DigitRun(s, num, n);
    }
    if At(s, num) == DOT && IsDigit(At(s, num + 1)) {
      var point := num + 1;
      n, num := DigitRun(s, point, n);
      scale := point - num;
    }
  }

  method NumberAt(s: seq<byte>, i: nat) returns (d: real, num: nat)
    ensures (d, num) == ParseNumber(s, i)
  {
    var n, scale, subscale;
    n, scale, num := Mantissa(s, if At(s, i) == MINUS then i + 1 else i);
    subscale, num := Exponent(s, num);
    d := Scaled(At(s, i) == MINUS, n, scale + subscale);
  }
}
