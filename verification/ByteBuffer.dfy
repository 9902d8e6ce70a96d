// Words are written and read most significant byte first, on a little-endian host.
module ByteBuffer {
  import opened Arithmetic
  import opened Bytes

  // x in n bytes, most significant byte first
  function BigEndian(x: nat, n: nat): (s: seq<byte>)
    ensures |s| == n
    decreases n
  {
    if n == 0 then [] else BigEndian(x / 256, n - 1) + [x % 256]
  }

  // as a little-endian host keeps it
  function LittleEndian(x: nat, n: nat): (s: seq<byte>)
    ensures |s| == n
    decreases n
  {
    if n == 0 then [] else [x % 256] + LittleEndian(x / 256, n - 1)
  }

  function Value(s: seq<byte>): nat {
    if s == [] then 0 else Value(s[..|s| - 1]) * 256 + s[|s| - 1]
  }

  ghost function Pow256(n: nat): (p: nat)
    ensures p > 0
  {
    if n == 0 then 1 else 256 * Pow256(n - 1)
  }

  // the lowest byte and the others modulo s
  lemma ModBytes(x: nat, s: nat)
    requires s > 0
    ensures x % (256 * s) == 256 * (x / 256 % s) + x % 256
  {
    var h := x / 256;
    var q, r := h / s, h % s;
    assert h == s * q + r;
    assert 256 * (s * q) == (256 * s) * q;
    DivModUnique(x, 256 * s, q, 256 * r + x % 256);
  }

  // n bytes hold a number modulo their range
  lemma {:induction false} WrittenIsRead(x: nat, n: nat)
    ensures Value(BigEndian(x, n)) == x % Pow256(n)
    decreases n
  {
    if n > 0 {
      var high := BigEndian(x / 256, n - 1);
      assert BigEndian(x, n)[..n - 1] == high;
      WrittenIsRead(x / 256, n - 1);
      ModBytes(x, Pow256(n - 1));
    }
  }

  const WORD16 := 0x1_0000
  const WORD32 := 0x1_0000_0000
  const WORD48 := 0x1_0000_0000_0000
  const WORD64 := 0x1_0000_0000_0000_0000

  lemma Ranges()
    ensures Pow256(2) == WORD16 && Pow256(4) == WORD32 && Pow256(6) == WORD48 && Pow256(8) == WORD64
  {
    assert Pow256(3) == 256 * Pow256(2);
    assert Pow256(5) == 256 * Pow256(4);
    assert Pow256(7) == 256 * Pow256(6);
  }

  type word16 = x: int | 0 <= x < WORD16
  type word32 = x: int | 0 <= x < WORD32
  type word64 = x: int | 0 <= x < WORD64

  method WriteByte(buf: array<byte>, p: nat, d: byte) returns (next: nat)
    requires p + 1 <= buf.Length
    modifies buf
    ensures next == p + 1 && buf[..next] == old(buf[..p]) + [d] && buf[next..] == old(buf[next..])
  {
    next := Put(buf, p, [d]);
  }

  method WriteWord(buf: array<byte>, p: nat, d: word16) returns (next: nat)
    requires p + 2 <= buf.Length
    modifies buf
    ensures next == p + 2 && buf[..next] == old(buf[..p]) + BigEndian(d, 2) && buf[next..] == old(buf[next..])
  {
    next := Put(buf, p, BigEndian(d, 2));
  }

  method WriteDword(buf: array<byte>, p: nat, d: word32) returns (next: nat)
    requires p + 4 <= buf.Length
    modifies buf
    ensures next == p + 4 && buf[..next] == old(buf[..p]) + BigEndian(d, 4) && buf[next..] == old(buf[next..])
  {
    next := Put(buf, p, BigEndian(d, 4));
  }

  // the six low bytes, the highest of them first, picked from the bytes of d in memory
  method WriteMac(buf: array<byte>, p: nat, d: word64) returns (next: nat)
    requires p + 6 <= buf.Length
    modifies buf
    ensures next == p + 6 && buf[..next] == old(buf[..p]) + BigEndian(d, 6) && buf[next..] == old(buf[next..])
  {
    var memory := LittleEndian(d, 8);
    MacBytes(d);
    next := Put(buf, p, [memory[5], memory[4], memory[3], memory[2], memory[1], memory[0]]);
  }

  // the two ways to keep a number are mirror images
  lemma {:induction false} Mirrored(x: nat, n: nat, i: nat)
    requires i < n
    ensures LittleEndian(x, n)[i] == BigEndian(x, n)[n - 1 - i]
    decreases n
  {
    if i > 0 { Mirrored(x / 256, n - 1, i - 1); }
  }

  // the lowest bytes come first whatever the width
  lemma {:induction false} LowBytes(x: nat, n: nat, m: nat, i: nat)
    requires i < n <= m
    ensures LittleEndian(x, m)[i] == LittleEndian(x, n)[i]
    decreases n
  {
    if i > 0 { LowBytes(x / 256, n - 1, m - 1, i - 1); }
  }

  lemma MacBytes(d: nat)
    ensures var memory := LittleEndian(d, 8);
      [memory[5], memory[4], memory[3], memory[2], memory[1], memory[0]] == BigEndian(d, 6)
  {
    forall i | 0 <= i < 6
      ensures LittleEndian(d, 8)[i] == BigEndian(d, 6)[5 - i]
    {
      LowBytes(d, 6, 8, i);
      Mirrored(d, 6, i);
    }
  }

  // on a big-endian host the first six bytes in memory are taken: those of d without its two lowest ones,
  // which are the right ones exactly for a number that repeats itself there
  lemma MacOnBigEndianHost(d: word64)
    ensures BigEndian(d, 8)[..6] == BigEndian(d / WORD16, 6)
    ensures BigEndian(d, 8)[..6] == BigEndian(d, 6) <==> d / WORD16 == d % WORD48
  {
    HighSix(d);
    SixAlike(d / WORD16, d);
  }

  lemma HighSix(d: nat)
    ensures BigEndian(d, 8)[..6] == BigEndian(d / WORD16, 6)
  {
    var high := d / 256 / 256;
    assert high == d / WORD16;
    assert BigEndian(d, 8) == BigEndian(high, 6) + [d / 256 % 256] + [d % 256];
  }

  // six bytes hold a number modulo 2^48 and nothing more
  lemma SixAlike(x: nat, y: nat)
    requires x < WORD48
    ensures BigEndian(x, 6) == BigEndian(y, 6) <==> x == y % WORD48
  {
    Ranges();
    ModSmall(x, WORD48);
    WrittenIsRead(x, 6);
    WrittenIsRead(y, 6);
    if x == y % WORD48 { SameBytes(x, y, 6); }
  }

  lemma {:induction false} SameBytes(x: nat, y: nat, n: nat)
    requires x % Pow256(n) == y % Pow256(n)
    ensures BigEndian(x, n) == BigEndian(y, n)
    decreases n
  {
    if n > 0 {
      ModBytes(x, Pow256(n - 1));
      ModBytes(y, Pow256(n - 1));
      SameBytes(x / 256, y / 256, n - 1);
    }
  }

  // so the address 1 is not written as 1 there
  lemma MacOneOnBigEndianHost()
    ensures BigEndian(1, 8)[..6] == [0, 0, 0, 0, 0, 0] && BigEndian(1, 6) == [0, 0, 0, 0, 0, 1]
  {
    assert BigEndian(0, 3) == [0, 0, 0];
    assert BigEndian(0, 5) == BigEndian(0, 3) + [0] + [0];
    assert BigEndian(1, 8) == BigEndian(0, 5) + [0] + [0] + [1];
  }

  method WriteQuadword(buf: array<byte>, p: nat, d: word64) returns (next: nat)
    requires p + 8 <= buf.Length
    modifies buf
    ensures next == p + 8 && buf[..next] == old(buf[..p]) + BigEndian(d, 8) && buf[next..] == old(buf[next..])
  {
    next := Put(buf, p, BigEndian(d, 8));
  }

  // a number written in n bytes stands in s from p
  lemma ReadBack(s: seq<byte>, p: nat, x: nat, n: nat)
    requires p + n <= |s| && s[p..p + n] == BigEndian(x, n) && x < Pow256(n)
    ensures Value(s[p..p + n]) == x
  {
    WrittenIsRead(x, n);
    DivModUnique(x, Pow256(n), 0, x);
  }

  method ReadByte(buf: seq<byte>, p: nat) returns (d: byte, next: nat)
    requires p + 1 <= |buf|
    ensures d == buf[p] && next == p + 1
  {
    d, next := buf[p], p + 1;
  }

  method ReadDword(buf: seq<byte>, p: nat) returns (d: nat, next: nat)
    requires p + 4 <= |buf|
    ensures d == Value(buf[p..p + 4]) && next == p + 4
  {
    d, next := Value(buf[p..p + 4]), p + 4;
  }

  method ReadQuadword(buf: seq<byte>, p: nat) returns (d: nat, next: nat)
    requires p + 8 <= |buf|
    ensures d == Value(buf[p..p + 8]) && next == p + 8
  {
    d, next := Value(buf[p..p + 8]), p + 8;
  }
}
