// parse_string: the escapes of a literal, their meaning, and the transcoder to UTF-8.
module JsonStrings {
  import opened Arithmetic
  import opened Bytes
  import opened CString
  import opened Json
  import opened Sequences

  // ---- what a literal means

  // one written character of a string literal
  datatype Unit =
    | Plain(c: byte)
    | Short(letter: byte)
    | Code(hex: seq<byte>)
    | Pair(high: seq<byte>, low: seq<byte>)

  predicate IsHex(c: byte) {
    48 <= c <= 57 || 65 <= c <= 70 || 97 <= c <= 102
  }

  function HexValue(c: byte): nat
    requires IsHex(c)
  {
    if c <= 57 then c - 48 else if c <= 70 then c - 55 else c - 87
  }

  predicate IsQuad(h: seq<byte>) {
    |h| == 4 && IsHex(h[0]) && IsHex(h[1]) && IsHex(h[2]) && IsHex(h[3])
  }

  function QuadValue(h: seq<byte>): (v: nat)
    requires IsQuad(h)
  {
    HexValue(h[0]) * 4096 + HexValue(h[1]) * 256 + HexValue(h[2]) * 16 + HexValue(h[3])
  }

  predicate HighSurrogate(uc: nat) {
    0xD800 <= uc <= 0xDBFF
  }

  predicate LowSurrogate(uc: nat) {
    0xDC00 <= uc <= 0xDFFF
  }

  // surrogates come in pairs and no escape stands for NUL
  predicate WellFormed(u: Unit) {
    match u
    case Plain(c) => c != 0 && c != QUOTE && c != BACKSLASH
    case Short(letter) => letter in [QUOTE, BACKSLASH, SLASH, 98, 102, 110, 114, 116]
    case Code(h) => IsQuad(h) && QuadValue(h) != 0 && !HighSurrogate(QuadValue(h)) && !LowSurrogate(QuadValue(h))
    case Pair(h, l) => IsQuad(h) && IsQuad(l) && HighSurrogate(QuadValue(h)) && LowSurrogate(QuadValue(l))
  }

  function Written(u: Unit): (t: seq<byte>) {
    match u
    case Plain(c) => [c]
    case Short(letter) => [BACKSLASH, letter]
    case Code(h) => [BACKSLASH, LETTER_U] + h
    case Pair(h, l) => [BACKSLASH, LETTER_U] + h + [BACKSLASH, LETTER_U] + l
  }

  // the table of section 3 of RFC 3629
  function Utf8(uc: nat): (t: seq<byte>)
    requires uc < 0x11_0000
    ensures 1 <= |t| <= 4
  {
    if uc < 0x80 then [uc]
    else if uc < 0x800 then [0xC0 + uc / 64, 0x80 + uc % 64]
    else if uc < 0x1_0000 then [0xE0 + uc / 64 / 64, 0x80 + uc / 64 % 64, 0x80 + uc % 64]
    else [0xF0 + uc / 64 / 64 / 64, 0x80 + uc / 64 / 64 % 64, 0x80 + uc / 64 % 64, 0x80 + uc % 64]
  }

  // section 7 of RFC 8259
  function ShortMeaning(letter: byte): byte {
    if letter == 98 then 8
    else if letter == 102 then 12
    else if letter == 110 then NEWLINE
    else if letter == 114 then RETURN
    else if letter == 116 then TAB
    else letter
  }

  function Meaning(u: Unit): (t: seq<byte>)
    requires WellFormed(u)
    ensures |t| <= 4
  {
    match u
    case Plain(c) => [c]
    case Short(letter) => [ShortMeaning(letter)]
    case Code(h) => Utf8(QuadValue(h))
    case Pair(h, l) => Utf8(0x1_0000 + (QuadValue(h) - 0xD800) * 0x400 + (QuadValue(l) - 0xDC00))
  }

  predicate AllWellFormed(units: seq<Unit>) {
    forall i :: 0 <= i < |units| ==> WellFormed(units[i])
  }

  // the characters of a literal between its quotes
  function Literal(units: seq<Unit>): seq<byte> {
    if units == [] then [] else Written(units[0]) + Literal(units[1..])
  }

  function Text(units: seq<Unit>): seq<byte>
    requires AllWellFormed(units)
  {
    if units == [] then [] else Meaning(units[0]) + Text(units[1..])
  }

  // ---- digits, code points and their bytes

  const UPPER := "0123456789ABCDEF"
  const LOWER := "0123456789abcdef"

  // digit n, in one case or the other
  function HexOf(n: nat, upper: bool): byte
    requires n < 16
  {
    (if upper then UPPER else LOWER)[n] as int
  }

  // the digits of these two texts, with the values of their places, and no others
  lemma HexDigits(n: nat)
    requires n < 16
    ensures IsHex(UPPER[n] as int) && HexValue(UPPER[n] as int) == n
    ensures IsHex(LOWER[n] as int) && HexValue(LOWER[n] as int) == n
  {
    assert UPPER[n] as int == if n < 10 then 48 + n else 55 + n;
    assert LOWER[n] as int == if n < 10 then 48 + n else 87 + n;
  }

  lemma OnlyHexDigits(c: byte)
    requires IsHex(c)
    ensures HexValue(c) < 16 && c in [UPPER[HexValue(c)] as int, LOWER[HexValue(c)] as int]
  {
  }

  // four digits of v, each in its own case
  function QuadOf(v: nat, upper: seq<bool>): (h: seq<byte>)
    requires v < 0x1_0000 && |upper| == 4
    ensures |h| == 4
  {
    [HexOf(v / 4096, upper[0]), HexOf(v / 256 % 16, upper[1]), HexOf(v / 16 % 16, upper[2]), HexOf(v % 16, upper[3])]
  }

  lemma QuadIs(v: nat, upper: seq<bool>)
    requires v < 0x1_0000 && |upper| == 4
    ensures IsQuad(QuadOf(v, upper)) && QuadValue(QuadOf(v, upper)) == v
  {
    HexOfIs(v / 4096, upper[0]);
    HexOfIs(v / 256 % 16, upper[1]);
    HexOfIs(v / 16 % 16, upper[2]);
    HexOfIs(v % 16, upper[3]);
    FourDigits(v);
  }

  lemma HexOfIs(n: nat, upper: bool)
    requires n < 16
    ensures IsHex(HexOf(n, upper)) && HexValue(HexOf(n, upper)) == n
  {
    HexDigits(n);
  }

  lemma FourDigits(v: nat)
    ensures v == v / 4096 * 4096 + v / 256 % 16 * 256 + v / 16 % 16 * 16 + v % 16
  {
    assert v / 256 == v / 4096 * 16 + v / 256 % 16;
    assert v / 16 == v / 256 * 16 + v / 16 % 16;
  }

  // each character of 16 bits but NUL has an escape
  lemma CodeMeans(v: nat, upper: seq<bool>) returns (u: Unit)
    requires 0 < v < 0x1_0000 && !(0xD800 <= v < 0xE000) && |upper| == 4
    ensures WellFormed(u) && Meaning(u) == Utf8(v) && Written(u) == [92, 117] + QuadOf(v, upper)
  {
    QuadIs(v, upper);
    u := Code(QuadOf(v, upper));
  }

  // and each one beyond has a pair of them, for its ten high and its ten low bits
  lemma PairMeans(a: nat, b: nat, upper: seq<bool>) returns (u: Unit)
    requires a < 0x400 && b < 0x400 && |upper| == 4
    ensures WellFormed(u) && Meaning(u) == Utf8(0x1_0000 + a * 0x400 + b)
    ensures Written(u) == [92, 117] + QuadOf(0xD800 + a, upper) + [92, 117] + QuadOf(0xDC00 + b, upper)
  {
    var high, low := QuadOf(0xD800 + a, upper), QuadOf(0xDC00 + b, upper);
    QuadIs(0xD800 + a, upper);
    QuadIs(0xDC00 + b, upper);
    PairIs(high, low, a, b);
    u := Pair(high, low);
  }

  lemma PairIs(high: seq<byte>, low: seq<byte>, a: nat, b: nat)
    requires IsQuad(high) && QuadValue(high) == 0xD800 + a && a < 0x400
    requires IsQuad(low) && QuadValue(low) == 0xDC00 + b && b < 0x400
    ensures WellFormed(Pair(high, low)) && Meaning(Pair(high, low)) == Utf8(0x1_0000 + a * 0x400 + b)
  {
  }

  // the letters that may be escaped, and the bytes they stand for
  lemma LettersMean(k: nat)
    requires k < 8
    ensures WellFormed(Short("\"\\/bfnrt"[k] as int))
    ensures Meaning(Short("\"\\/bfnrt"[k] as int)) == [[34, 92, 47, 8, 12, 10, 13, 9][k]]
  {
  }

  predicate Follows(c: byte) {
    0x80 <= c < 0xC0
  }

  function WithSix(high: int, c: byte): int {
    high * 64 + c % 64
  }

  // a code point is read back from the low bits of its first byte and six bits of each other
  function ReadUtf8(t: seq<byte>): int {
    if |t| == 1 && t[0] < 0x80 then t[0]
    else if |t| == 2 && 0xC0 <= t[0] < 0xE0 && Follows(t[1]) then WithSix(t[0] % 32, t[1])
    else if |t| == 3 && 0xE0 <= t[0] < 0xF0 && Follows(t[1]) && Follows(t[2]) then
      WithSix(WithSix(t[0] % 16, t[1]), t[2])
    else if |t| == 4 && 0xF0 <= t[0] < 0xF8 && Follows(t[1]) && Follows(t[2]) && Follows(t[3]) then
      WithSix(WithSix(WithSix(t[0] % 8, t[1]), t[2]), t[3])
    else -1
  }

  lemma SixBack(v: nat)
    ensures WithSix(v / 64, 0x80 + v % 64) == v && Follows(0x80 + v % 64)
  {
  }

  // and it is written in as few bytes as can be
  lemma Utf8IsRead(v: nat)
    requires v < 0x11_0000
    ensures ReadUtf8(Utf8(v)) == v && v >= [0, 0x80, 0x800, 0x1_0000][|Utf8(v)| - 1]
  {
    SixBack(v);
    SixBack(v / 64);
    SixBack(v / 64 / 64);
    if v < 0x80 {
    } else if v < 0x800 {
      HighBits(v / 64, 32, 6);
    } else if v < 0x1_0000 {
      HighBits(v / 64 / 64, 16, 14);
    } else {
      HighBits(v / 64 / 64 / 64, 8, 30);
    }
  }

  lemma HighBits(high: nat, m: nat, mark: nat)
    requires high < m && m in [8, 16, 32]
    ensures (mark * m + high) % m == high
  {
    DivModUnique(mark * m + high, m, mark, high);
  }

  // ---- what the parser does with any text

  function Hex4(s: seq<byte>, p: nat): nat {
    var h := [At(s, p), At(s, p + 1), At(s, p + 2), At(s, p + 3)];
    if IsQuad(h) then QuadValue(h) else 0
  }

  // one turn of the copying loop: what is stored and where it goes on
  function Step(s: seq<byte>, p: nat): (r: (seq<byte>, nat))
    ensures p < r.1
  {
    if At(s, p) != BACKSLASH then ([At(s, p)], p + 1)
    else if At(s, p + 1) != LETTER_U then ([ShortMeaning(At(s, p + 1))], p + 2)
    else CodeStep(s, p)
  }

  // a \u escape; a lone or reversed surrogate and NUL are dropped
  function CodeStep(s: seq<byte>, p: nat): (r: (seq<byte>, nat))
    requires At(s, p) == BACKSLASH && At(s, p + 1) == LETTER_U
    ensures p < r.1
  {
    var uc := Hex4(s, p + 2);
    if LowSurrogate(uc) || uc == 0 then ([], p + 6)
    else if !HighSurrogate(uc) then (Utf8(uc), p + 6)
    else if At(s, p + 6) != BACKSLASH || At(s, p + 7) != LETTER_U then ([], p + 6)
    else
      var uc2 := Hex4(s, p + 8);
      if !LowSurrogate(uc2) then ([], p + 12)
      else (Utf8(0x1_0000 + (uc - 0xD800) * 0x400 + (uc2 - 0xDC00)), p + 12)
  }

  predicate Stops(s: seq<byte>, p: nat) {
    At(s, p) == QUOTE || At(s, p) == 0
  }

  function Decode(s: seq<byte>, p: nat): (r: (seq<byte>, nat))
    ensures p <= r.1 && Stops(s, r.1)
    decreases |s| - p
  {
    if Stops(s, p) then ([], p)
    else
      var (out, q) := Step(s, p);
      var (more, end) := Decode(s, q);
      (out + more, end)
  }

  // the length the first pass counts
  function Room(s: seq<byte>, p: nat): nat
    decreases |s| - p
  {
    if Stops(s, p) then 0 else 1 + Room(s, if At(s, p) == BACKSLASH then p + 2 else p + 1)
  }

  function ParseString(s: seq<byte>, i: nat): (r: Parsed<seq<byte>>)
    ensures r.Ok? ==> i < r.end
  {
    if At(s, i) != QUOTE then Fail(i)
    else
      var (text, end) := Decode(s, i + 1);
      Ok(text, if At(s, end) == QUOTE then end + 1 else end)
  }

  // ---- the bits of the transcoder

  lemma SecondBit(q: nat)
    ensures BitAnd(BitOr(q, 2), 2) == 2
  {
    var z := BitOr(q / 2, 1);
    assert Pow2(1) == 2;
    assert q == Join(q / 2, 1, q % 2) && 2 == Join(1, 1, 0);
    OrSplit(q / 2, q % 2, 1, 0, 1);
    AndSplit(z, q % 2, 1, 0, 1);
    BitAndZero(q % 2);
    MaskIsMod(z, 1);
    OrHalves(q / 2, 1);
  }

  lemma JoinSix(high: nat, low: nat)
    ensures Pow2(6) == 64 && Join(high, 6, low) == 64 * high + low
  {
  }

  lemma ContinuationBits(uc: nat)
    ensures BitAnd(BitOr(uc, 0x80), 0xBF) == 0x80 + uc % 64
  {
    var q, r := uc / 64, uc % 64;
    var marked := BitOr(q, 2);
    JoinSix(q, r);
    JoinSix(2, 0);
    JoinSix(2, 63);
    JoinSix(marked, r);
    JoinSix(2, r);
    OrSplit(q, r, 2, 0, 6);
    assert BitOr(uc, 0x80) == Join(marked, 6, r);
    AndSplit(marked, r, 2, 63, 6);
    MaskIsMod(r, 6);
    ModSmall(r, 64);
    SecondBit(q);
    assert BitAnd(Join(marked, 6, r), 0xBF) == Join(2, 6, r);
  }

  lemma ShiftSix(uc: nat)
    ensures Shr(uc, 6) == uc / 64
  {
    assert Shr(uc, 6) == Shr(uc / 2, 5) == Shr(uc / 4, 4) == Shr(uc / 8, 3) == Shr(uc / 16, 2) == Shr(uc / 32, 1);
  }

  lemma MarkedByte(uc: nat, high: nat, k: nat)
    requires uc < Pow2(k)
    ensures BitOr(uc, high * Pow2(k)) == high * Pow2(k) + uc
  {
    OrSplit(0, uc, high, 0, k);
    assert uc == Join(0, k, uc);
  }

  lemma FirstByte(uc: nat, len: nat)
    requires 1 <= len <= 4 && uc < [0x80, 0x20, 0x10, 8][len - 1]
    ensures BitOr(uc, FIRST_BYTE_MARK[len]) == FIRST_BYTE_MARK[len] + uc
  {
    assert Pow2(3) == 8 && Pow2(4) == 16 && Pow2(5) == 32;
    if len == 2 { MarkedByte(uc, 6, 5); }
    if len == 3 { MarkedByte(uc, 14, 4); }
    if len == 4 { MarkedByte(uc, 30, 3); }
  }

  const FIRST_BYTE_MARK: seq<byte> := [0x00, 0x00, 0xC0, 0xE0, 0xF0, 0xF8, 0xFC]

  // a byte for the six lowest bits; the others are left
  method Continuation(uc: nat) returns (c: byte, rest: nat)
    ensures c == 0x80 + uc % 64 && rest == uc / 64
  {
    ContinuationBits(uc);
    ShiftSix(uc);
    c, rest := BitAnd(BitOr(uc, 0x80), 0xBF), Shr(uc, 6);
  }

  function Utf8Length(uc: nat): (len: nat)
    requires uc < 0x11_0000
    ensures len == |Utf8(uc)|
  {
    if uc < 0x80 then 1 else if uc < 0x800 then 2 else if uc < 0x1_0000 then 3 else 4
  }

  // the bytes are stored from the last to the first
  method Transcode(code: nat) returns (out: seq<byte>)
    requires code < 0x11_0000
    ensures out == Utf8(code)
  {
    var uc, len := code, Utf8Length(code);
    out := [];
    var c;
    if len >= 4 {
      c, uc := Continuation(uc);
      out := [c] + out;
    }
    if len >= 3 {
      c, uc := Continuation(uc);
      out := [c] + out;
    }
    if len >= 2 {
      c, uc := Continuation(uc);
      out := [c] + out;
    }
    FirstByte(uc, len);
    out := [BitOr(uc, FIRST_BYTE_MARK[len])] + out;
  }

  // the ten low bits of a surrogate
  lemma LowTen(x: nat, base: nat)
    requires base % 0x400 == 0 && base <= x < base + 0x400
    ensures BitAnd(x, 0x3FF) == x - base
  {
    assert Pow2(5) == 32;
    Pow2Divides(5, 10);
    MaskIsMod(x, 10);
    DivModUnique(x, 0x400, base / 0x400, x - base);
  }

  lemma OrTen(high: nat, low: nat)
    requires low < 0x400
    ensures BitOr(high * 0x400, low) == high * 0x400 + low
  {
    assert Pow2(5) == 32;
    Pow2Divides(5, 10);
    OrSplit(high, 0, 0, low, 10);
    assert high * 0x400 == Join(high, 10, 0) && low == Join(0, 10, low);
  }

  method Combine(uc: nat, uc2: nat) returns (code: nat)
    requires HighSurrogate(uc) && LowSurrogate(uc2)
    ensures code == 0x1_0000 + (uc - 0xD800) * 0x400 + (uc2 - 0xDC00)
  {
    var high, low := BitAnd(uc, 0x3FF), BitAnd(uc2, 0x3FF);
    LowTen(uc, 0xD800);
    LowTen(uc2, 0xDC00);
    OrTen(high, low);
    code := 0x1_0000 + BitOr(high * 0x400, low);
  }

  // a \u escape, or two; p is at the backslash
  method CodePoint(s: seq<byte>, p: nat) returns (out: seq<byte>, next: nat)
    requires At(s, p) == BACKSLASH && At(s, p + 1) == LETTER_U
    ensures (out, next) == Step(s, p)
  {
    var uc := Hex4(s, p + 2);
    out, next := [], p + 6;
    if LowSurrogate(uc) || uc == 0 { return; }
    if HighSurrogate(uc) {
      if At(s, p + 6) != BACKSLASH || At(s, p + 7) != LETTER_U { return; }
      var uc2 := Hex4(s, p + 8);
      next := p + 12;
      if !LowSurrogate(uc2) { return; }
      uc := Combine(uc, uc2);
    }
    out := Transcode(uc);
  }

  // the first pass
  method CountRoom(s: seq<byte>, p: nat) returns (room: nat)
    ensures room == Room(s, p)
  {
    room := 0;
    var ptr := p;
    while At(s, ptr) != QUOTE && At(s, ptr) != 0
      invariant room + Room(s, ptr) == Room(s, p)
      decreases |s| - ptr
    {
      room := room + 1;
      ptr := if At(s, ptr) == BACKSLASH then ptr + 2 else ptr + 1;
    }
  }

  // the second pass
  method Copy(s: seq<byte>, p: nat) returns (out: seq<byte>, ptr: nat)
    ensures (out, ptr) == Decode(s, p)
  {
    out, ptr := [], p;
    assert [] + Decode(s, ptr).0 == Decode(s, p).0;
    while At(s, ptr) != QUOTE && At(s, ptr) != 0
      invariant out + Decode(s, ptr).0 == Decode(s, p).0 && Decode(s, ptr).1 == Decode(s, p).1
      decreases |s| - ptr
    {
      var more, next;
      if At(s, ptr) != BACKSLASH {
        more, next := [At(s, ptr)], ptr + 1;
      } else if At(s, ptr + 1) == LETTER_U {
        more, next := CodePoint(s, ptr);
      } else {
        more, next := [ShortMeaning(At(s, ptr + 1))], ptr + 2;
      }
      DecodeStep(s, ptr, more, next);
      Assoc(out, more, Decode(s, next).0);
      out, ptr := out + more, next;
    }
    assert out + [] == out;
  }

  lemma DecodeStep(s: seq<byte>, p: nat, out: seq<byte>, q: nat)
    requires !Stops(s, p) && Step(s, p) == (out, q)
    ensures Decode(s, p).0 == out + Decode(s, q).0 && Decode(s, p).1 == Decode(s, q).1
  {
  }

  // room is the size the first pass asks for, less one
  method StringAt(s: seq<byte>, str: nat) returns (r: Parsed<seq<byte>>, room: nat)
    ensures r == ParseString(s, str)
    ensures At(s, str) == QUOTE ==> room == Room(s, str + 1)
  {
    if At(s, str) != QUOTE {
      return Fail(str), 0;
    }
    room := CountRoom(s, str + 1);
    var out, ptr := Copy(s, str + 1);
    r := Ok(out, if At(s, ptr) == QUOTE then ptr + 1 else ptr);
  }

  // ---- a well-formed literal gets its meaning, in the room that was counted

  lemma QuadAt(s: seq<byte>, p: nat, h: seq<byte>)
    requires IsQuad(h) && HasAt(s, p, h)
    ensures Hex4(s, p) == QuadValue(h)
    ensures Room(s, p) == 4 + Room(s, p + 4)
  {
    HasByte(s, p, h, 0);
    HasByte(s, p, h, 1);
    HasByte(s, p, h, 2);
    HasByte(s, p, h, 3);
    assert Room(s, p) == 1 + Room(s, p + 1);
    assert Room(s, p + 1) == 1 + Room(s, p + 2);
    assert Room(s, p + 2) == 1 + Room(s, p + 3);
  }

  // the backslash and the u of an escape, and its digits
  lemma EscapeAt(s: seq<byte>, p: nat, h: seq<byte>)
    requires IsQuad(h) && HasAt(s, p, [BACKSLASH, LETTER_U] + h)
    ensures At(s, p) == BACKSLASH && At(s, p + 1) == LETTER_U && Hex4(s, p + 2) == QuadValue(h)
    ensures Room(s, p) == 5 + Room(s, p + 6)
  {
    HasSplit(s, p, [BACKSLASH, LETTER_U], h);
    HasByte(s, p, [BACKSLASH, LETTER_U], 0);
    HasByte(s, p, [BACKSLASH, LETTER_U], 1);
    QuadAt(s, p + 2, h);
  }

  lemma PairStep(s: seq<byte>, p: nat, uc: nat, uc2: nat)
    requires At(s, p) == BACKSLASH && At(s, p + 1) == LETTER_U && Hex4(s, p + 2) == uc && HighSurrogate(uc)
    requires At(s, p + 6) == BACKSLASH && At(s, p + 7) == LETTER_U && Hex4(s, p + 8) == uc2 && LowSurrogate(uc2)
    ensures !Stops(s, p)
    ensures Step(s, p) == (Utf8(0x1_0000 + (uc - 0xD800) * 0x400 + (uc2 - 0xDC00)), p + 12)
  {
  }

  lemma PairParts(s: seq<byte>, p: nat, h: seq<byte>, l: seq<byte>)
    requires |h| == 4 && HasAt(s, p, Written(Pair(h, l)))
    ensures HasAt(s, p, [BACKSLASH, LETTER_U] + h) && HasAt(s, p + 6, [BACKSLASH, LETTER_U] + l)
  {
    Assoc([BACKSLASH, LETTER_U] + h, [BACKSLASH, LETTER_U], l);
    HasSplit(s, p, [BACKSLASH, LETTER_U] + h, [BACKSLASH, LETTER_U] + l);
  }

  lemma StepPair(s: seq<byte>, p: nat, h: seq<byte>, l: seq<byte>)
    requires WellFormed(Pair(h, l)) && HasAt(s, p, Written(Pair(h, l)))
    ensures !Stops(s, p)
    ensures Step(s, p) == (Meaning(Pair(h, l)), p + 12)
    ensures Room(s, p) >= 4 + Room(s, p + 12)
  {
    PairParts(s, p, h, l);
    EscapeAt(s, p, h);
    EscapeAt(s, p + 6, l);
    PairStep(s, p, QuadValue(h), QuadValue(l));
  }

  lemma StepUnit(s: seq<byte>, p: nat, u: Unit)
    requires WellFormed(u) && HasAt(s, p, Written(u))
    ensures !Stops(s, p)
    ensures Step(s, p) == (Meaning(u), p + |Written(u)|)
    ensures Room(s, p) >= |Meaning(u)| + Room(s, p + |Written(u)|)
  {
    match u
    case Plain(c) =>
      HasByte(s, p, Written(u), 0);
    case Short(letter) =>
      HasByte(s, p, Written(u), 0);
      HasByte(s, p, Written(u), 1);
    case Code(h) =>
      EscapeAt(s, p, h);
    case Pair(h, l) =>
      StepPair(s, p, h, l);
  }

  lemma UnitDecodes(s: seq<byte>, p: nat, u: Unit, q: nat)
    requires WellFormed(u) && HasAt(s, p, Written(u)) && q == p + |Written(u)|
    ensures Decode(s, p).0 == Meaning(u) + Decode(s, q).0 && Decode(s, p).1 == Decode(s, q).1
    ensures Room(s, p) >= |Meaning(u)| + Room(s, q)
  {
    StepUnit(s, p, u);
    DecodeStep(s, p, Meaning(u), q);
  }

  lemma UnitsLayout(s: seq<byte>, p: nat, units: seq<Unit>) returns (q: nat)
    requires units != [] && HasAt(s, p, Literal(units))
    ensures HasAt(s, p, Written(units[0])) && q == p + |Written(units[0])|
    ensures HasAt(s, q, Literal(units[1..])) && q + |Literal(units[1..])| == p + |Literal(units)|
  {
    var first, rest := Written(units[0]), Literal(units[1..]);
    assert Literal(units) == first + rest;
    HasSplit(s, p, first, rest);
    q := p + |first|;
  }

  lemma TextSplit(units: seq<Unit>)
    requires units != [] && AllWellFormed(units)
    ensures WellFormed(units[0]) && AllWellFormed(units[1..])
    ensures Text(units) == Meaning(units[0]) + Text(units[1..])
  {
  }

  // what the parser stores is the meaning of the literal, and it fits the room that was counted
  lemma {:induction false} Unescapes(s: seq<byte>, p: nat, units: seq<Unit>, end: nat)
    requires AllWellFormed(units) && HasAt(s, p, Literal(units))
    requires end == p + |Literal(units)| && At(s, end) == QUOTE
    ensures Decode(s, p) == (Text(units), end)
    ensures |Text(units)| <= Room(s, p)
    decreases |units|
  {
    if units != [] {
      var q := UnitsLayout(s, p, units);
      TextSplit(units);
      UnitDecodes(s, p, units[0], q);
      Unescapes(s, q, units[1..], end);
    }
  }

  // ---- escapes that stand for nothing

  // four bytes that are no digits, NUL, a lone or reversed surrogate: nothing is stored
  lemma NothingStored(s: seq<byte>, p: nat, v: nat, upper: seq<bool>)
    requires v < 0x1_0000 && |upper| == 4 && HasAt(s, p, [92, 117] + QuadOf(v, upper))
    ensures v == 0 || 0xDC00 <= v < 0xE000 ==> Step(s, p) == ([], p + 6)
    ensures 0xD800 <= v < 0xDC00 && !HasAt(s, p + 6, [92, 117]) ==> Step(s, p) == ([], p + 6)
  {
    QuadIs(v, upper);
    EscapeAt(s, p, QuadOf(v, upper));
    HasBoth(s, p + 6, 92, 117);
  }

  lemma UnpairedStored(s: seq<byte>, p: nat, v: nat, w: nat, upper: seq<bool>)
    requires 0xD800 <= v < 0xDC00 && w < 0x1_0000 && !(0xDC00 <= w < 0xE000) && |upper| == 4
    requires HasAt(s, p, [92, 117] + QuadOf(v, upper)) && HasAt(s, p + 6, [92, 117] + QuadOf(w, upper))
    ensures Step(s, p) == ([], p + 12)
  {
    QuadIs(v, upper);
    QuadIs(w, upper);
    EscapeAt(s, p, QuadOf(v, upper));
    EscapeAt(s, p + 6, QuadOf(w, upper));
  }

  lemma NoDigitsStored(s: seq<byte>, p: nat, k: nat)
    requires HasAt(s, p, [92, 117]) && k < 4 && !IsHex(At(s, p + 2 + k))
    ensures Step(s, p) == ([], p + 6)
  {
    HasBoth(s, p, 92, 117);
    var h := [At(s, p + 2), At(s, p + 3), At(s, p + 4), At(s, p + 5)];
    assert !IsHex(h[k]);
  }

  lemma HasBoth(s: seq<byte>, p: nat, a: byte, b: byte)
    requires a != 0 && b != 0
    ensures HasAt(s, p, [a, b]) <==> At(s, p) == a && At(s, p + 1) == b
  {
    assert [a, b][1..] == [b];
    assert HasAt(s, p + 1, [b]) <==> At(s, p + 1) == b;
  }

  // ---- any text: the second pass stays in the room counted as long as it stops no later than the first

  // where the first pass stops
  function CountStop(s: seq<byte>, p: nat): (r: nat)
    ensures p <= r && Stops(s, r)
    decreases |s| - p
  {
    if Stops(s, p) then p else CountStop(s, if At(s, p) == BACKSLASH then p + 2 else p + 1)
  }

  // the first pass on its way over n: it meets n, or is at the second byte of an escape there
  lemma {:induction false} March(s: seq<byte>, f: nat, n: nat) returns (g: nat)
    requires f <= n <= CountStop(s, f)
    ensures n <= g <= n + 1 && CountStop(s, g) == CountStop(s, f)
    ensures Room(s, g) + (g - n) <= Room(s, f)
    decreases n - f
  {
    if f == n {
      g := n;
    } else {
      var next := if At(s, f) == BACKSLASH then f + 2 else f + 1;
      if next > n {
        g := next;
      } else {
        g := March(s, next, n);
      }
    }
  }

  lemma QuadCounts(s: seq<byte>, p: nat)
    requires IsQuad([At(s, p), At(s, p + 1), At(s, p + 2), At(s, p + 3)])
    ensures Room(s, p) == 4 + Room(s, p + 4) && CountStop(s, p) == CountStop(s, p + 4)
  {
    assert Room(s, p) == 1 + Room(s, p + 1) && CountStop(s, p) == CountStop(s, p + 1);
    assert Room(s, p + 1) == 1 + Room(s, p + 2) && CountStop(s, p + 1) == CountStop(s, p + 2);
    assert Room(s, p + 2) == 1 + Room(s, p + 3) && CountStop(s, p + 2) == CountStop(s, p + 3);
  }

  lemma Quad(s: seq<byte>, p: nat)
    requires Hex4(s, p) != 0
    ensures IsQuad([At(s, p), At(s, p + 1), At(s, p + 2), At(s, p + 3)])
  {
  }

  // an escape stores no more than is counted for the bytes it takes
  lemma CodeCounts(s: seq<byte>, q: nat, out: seq<byte>, n: nat)
    requires At(s, q) == BACKSLASH && At(s, q + 1) == LETTER_U && CodeStep(s, q) == (out, n) && n <= CountStop(s, q + 2)
    ensures out != [] ==> Room(s, q + 2) >= |out| + Room(s, n) && CountStop(s, n) == CountStop(s, q + 2)
  {
    if out != [] {
      Quad(s, q + 2);
      QuadCounts(s, q + 2);
      if n == q + 12 {
        assert At(s, q + 6) == BACKSLASH && At(s, q + 7) == LETTER_U;
        Quad(s, q + 8);
        QuadCounts(s, q + 8);
      }
    }
  }

  // the first pass is at f, which is q or one further, and goes on to where it meets the second pass again
  lemma CodeRoom(s: seq<byte>, f: nat, q: nat, out: seq<byte>, n: nat) returns (g: nat)
    requires q <= f <= q + 1 && At(s, q) == BACKSLASH && At(s, q + 1) == LETTER_U
    requires CodeStep(s, q) == (out, n) && n <= CountStop(s, f)
    ensures n <= g <= n + 1 && CountStop(s, g) == CountStop(s, f)
    ensures |out| + Room(s, g) + (g - n) <= Room(s, f) + (f - q)
  {
    assert CountStop(s, f) == CountStop(s, q + 2) && Room(s, f) == 1 + Room(s, q + 2);
    CodeCounts(s, q, out, n);
    g := n;
    if out == [] {
      g := March(s, q + 2, n);
    }
  }

  lemma StepRoom(s: seq<byte>, f: nat, q: nat, out: seq<byte>, n: nat) returns (g: nat)
    requires q <= f <= q + 1 && !Stops(s, q) && Step(s, q) == (out, n) && n <= CountStop(s, f)
    ensures n <= g <= n + 1 && CountStop(s, g) == CountStop(s, f)
    ensures |out| + Room(s, g) + (g - n) <= Room(s, f) + (f - q)
  {
    if At(s, q) != BACKSLASH {
      g := n;
    } else if At(s, q + 1) != LETTER_U {
      g := n;
      if f > q {
        g := March(s, f, n);
      }
    } else {
      g := CodeRoom(s, f, q, out, n);
    }
  }

  lemma {:induction false} StaysInRoom(s: seq<byte>, f: nat, q: nat)
    requires q <= f <= q + 1 && Decode(s, q).1 <= CountStop(s, f)
    ensures |Decode(s, q).0| <= Room(s, f) + (f - q)
    decreases |s| - q
  {
    if !Stops(s, q) {
      var (out, n) := Step(s, q);
      DecodeStep(s, q, out, n);
      var g := StepRoom(s, f, q, out, n);
      StaysInRoom(s, g, n);
    }
  }

  // the text stored for any literal, closed or not, fits the room counted for it if the second pass stops
  // no later than the first
  lemma DecodedFits(s: seq<byte>, p: nat)
    requires Decode(s, p).1 <= CountStop(s, p)
    ensures |Decode(s, p).0| <= Room(s, p)
  {
    StaysInRoom(s, p, p);
  }

  // u is a literal up to the quote where the first pass stops, seen from p
  predicate Counted(u: seq<byte>, p: nat) {
    u != [] && u[|u| - 1] == QUOTE && CountStop(u, p) == |u| - 1
  }

  lemma SameAt(u: seq<byte>, t: seq<byte>, i: nat)
    ensures i < |u| ==> At(u + t, i) == At(u, i)
  {
  }

  lemma SameHex(u: seq<byte>, t: seq<byte>, p: nat)
    requires p + 3 < |u|
    ensures Hex4(u + t, p) == Hex4(u, p)
  {
    SameAt(u, t, p);
    SameAt(u, t, p + 1);
    SameAt(u, t, p + 2);
    SameAt(u, t, p + 3);
  }

  lemma SameCodeStep(u: seq<byte>, t: seq<byte>, q: nat)
    requires u != [] && u[|u| - 1] == QUOTE && At(u, q) == BACKSLASH && At(u, q + 1) == LETTER_U
    requires At(u + t, q) == BACKSLASH && At(u + t, q + 1) == LETTER_U
    ensures CodeStep(u, q).1 < |u| ==> CodeStep(u + t, q) == CodeStep(u, q)
    ensures CodeStep(u, q).1 >= |u| ==> |u| <= CodeStep(u + t, q).1 <= q + 12
  {
    if q + 5 < |u| {
      SameHex(u, t, q + 2);
      SameAt(u, t, q + 6);
      SameAt(u, t, q + 7);
      if q + 11 < |u| {
        SameHex(u, t, q + 8);
      }
    }
  }

  // as long as it does not go past that quote, a step does not see what is behind it
  lemma SameStep(u: seq<byte>, t: seq<byte>, q: nat)
    requires u != [] && u[|u| - 1] == QUOTE && q < |u|
    ensures Stops(u + t, q) <==> Stops(u, q)
    ensures !Stops(u, q) && Step(u, q).1 < |u| ==> Step(u + t, q) == Step(u, q)
    ensures !Stops(u, q) && Step(u, q).1 >= |u| ==> |u| <= Step(u + t, q).1 <= q + 12
  {
    SameAt(u, t, q);
    SameAt(u, t, q + 1);
    if At(u, q) == BACKSLASH && At(u, q + 1) == LETTER_U {
      SameCodeStep(u, t, q);
    }
  }

  lemma {:induction false} SameCount(u: seq<byte>, t: seq<byte>, p: nat)
    requires Counted(u, p)
    ensures Room(u + t, p) == Room(u, p) && CountStop(u + t, p) == CountStop(u, p) && Room(u, p) < |u| - p
    decreases |u| - p
  {
    assert At(u + t, p) == At(u, p);
    if !Stops(u, p) { SameCount(u, t, if At(u, p) == BACKSLASH then p + 2 else p + 1); }
  }

  lemma {:induction false} SameDecode(u: seq<byte>, t: seq<byte>, q: nat)
    requires u != [] && u[|u| - 1] == QUOTE && Decode(u, q).1 < |u|
    ensures Decode(u + t, q) == Decode(u, q)
    decreases |u| - q
  {
    SameStep(u, t, q);
    if !Stops(u, q) { SameDecode(u, t, Step(u, q).1); }
  }

  function Letters(k: nat): (t: seq<byte>)
    ensures |t| == k
  {
    seq(k, i => 65)
  }

  // every letter behind is stored
  lemma {:induction false} LettersStored(u: seq<byte>, k: nat, q: nat)
    requires |u| <= q
    ensures |Decode(u + Letters(k), q).0| >= |u| + k - q
    decreases |u| + k - q
  {
    if q < |u| + k { LettersStored(u, k, q + 1); }
  }

  lemma {:induction false} Overrun(u: seq<byte>, k: nat, q: nat)
    requires u != [] && u[|u| - 1] == QUOTE && q < |u| <= Decode(u, q).1
    ensures |Decode(u + Letters(k), q).0| >= k - 12
    decreases |u| - q
  {
    var t := Letters(k);
    SameStep(u, t, q);
    var (out, n) := Step(u + t, q);
    DecodeStep(u + t, q, out, n);
    if n < |u| { Overrun(u, k, n); } else { LettersStored(u, k, n); }
  }

  // where the character written at p ends for the second pass, said from the text alone
  function UnitEnd(u: seq<byte>, p: nat): (q: nat)
    ensures p < q
  {
    if At(u, p) != BACKSLASH then p + 1
    else if At(u, p + 1) != LETTER_U then p + 2
    else if HighSurrogate(Hex4(u, p + 2)) && At(u, p + 6) == BACKSLASH && At(u, p + 7) == LETTER_U then p + 12
    else p + 6
  }

  // no escape from p on reaches over the closing quote, the last byte of u
  predicate EscapesClosed(u: seq<byte>, p: nat)
    decreases |u| - p
  {
    Stops(u, p) || (UnitEnd(u, p) < |u| && EscapesClosed(u, UnitEnd(u, p)))
  }

  lemma StepEnds(u: seq<byte>, p: nat)
    ensures Step(u, p).1 == UnitEnd(u, p)
  {
  }

  lemma {:induction false} ClosedStops(u: seq<byte>, p: nat)
    requires p < |u|
    ensures EscapesClosed(u, p) <==> Decode(u, p).1 < |u|
    decreases |u| - p
  {
    if !Stops(u, p) {
      var (out, q) := Step(u, p);
      StepEnds(u, p);
      DecodeStep(u, p, out, q);
      if q < |u| { ClosedStops(u, q); }
    }
  }

  // what is stored fits the room counted, whatever comes behind the literal, exactly when no escape reaches
  // over its closing quote
  lemma FitsWhateverFollows(u: seq<byte>, p: nat)
    requires Counted(u, p)
    ensures (forall t :: |Decode(u + t, p).0| <= Room(u + t, p)) <==> EscapesClosed(u, p)
  {
    ClosedStops(u, p);
    if EscapesClosed(u, p) {
      forall t
        ensures |Decode(u + t, p).0| <= Room(u + t, p)
      {
        SameCount(u, t, p);
        SameDecode(u, t, p);
        DecodedFits(u, p);
      }
    } else {
      var k := |u| + 12;
      SameCount(u, Letters(k), p);
      Overrun(u, k, p);
    }
  }

  // an escape that takes the closing quote for a digit runs past it: one unit is counted, four bytes are stored
  lemma RunsOver(s: seq<byte>)
    requires s == [BACKSLASH, LETTER_U, QUOTE, 65, 65, 65, 65, 65, 65, 65]
    ensures Counted(s[..3], 0) && !EscapesClosed(s[..3], 0)
    ensures CountStop(s, 0) == 2 && Room(s, 0) == 1 && Decode(s, 0).0 == [65, 65, 65, 65]
  {
    assert Hex4(s, 2) == 0 && Step(s, 0) == ([], 6);
    assert Decode(s, 10).0 == [];
    DecodeStep(s, 9, [65], 10);
    assert Decode(s, 9).0 == [65];
    DecodeStep(s, 8, [65], 9);
    assert Decode(s, 8).0 == [65, 65];
    DecodeStep(s, 7, [65], 8);
    assert Decode(s, 7).0 == [65, 65, 65];
    DecodeStep(s, 6, [65], 7);
    assert Decode(s, 6).0 == [65, 65, 65, 65];
    DecodeStep(s, 0, [], 6);
  }
}
