// The envelope of every encoded message, and the scanner on it.
module Framing {
  import opened Arithmetic
  import opened Bytes
  import opened ByteBuffer
  import opened Frames
  import opened Protocol
  import opened Sequences

  // the bytes the checksum covers, around a message id and its fields
  function Head(id: word16, fields: seq<byte>): (s: seq<byte>)
    ensures |s| == 5 + |fields|
  {
    [FLAG] + BigEndian((|fields| + 7) % WORD16, 2) + BigEndian(id, 2) + fields
  }

  function Framed(id: word16, fields: seq<byte>): (s: seq<byte>)
    ensures |s| == 7 + |fields|
  {
    Head(id, fields) + [Checksum(Head(id, fields)), FLAG]
  }

  lemma WordIsRead(x: word16)
    ensures Word(BigEndian(x, 2)[0], BigEndian(x, 2)[1]) == x
  {
    assert BigEndian(x, 2) == BigEndian(x / 256, 1) + [x % 256];
    assert BigEndian(x / 256, 1) == BigEndian(x / 256 / 256, 0) + [x / 256 % 256];
  }

  // the flag, the length and the id of a head
  lemma HeadStarts(id: word16, fields: seq<byte>)
    ensures var h, n := Head(id, fields), BigEndian((|fields| + 7) % WORD16, 2);
      h[0] == FLAG && h[1] == n[0] && h[2] == n[1] && h[3] == BigEndian(id, 2)[0] && h[4] == BigEndian(id, 2)[1]
  {
  }

  lemma FramedIsFrame(id: word16, fields: seq<byte>)
    requires 1 <= |fields| <= MAX_FRAME - 7
    ensures IsFrame(Framed(id, fields)) && FrameId(Framed(id, fields)) == id
  {
    var f, h := Framed(id, fields), Head(id, fields);
    var n: word16 := |f|;
    ModSmall(n, WORD16);
    WordIsRead(n);
    WordIsRead(id);
    HeadStarts(id, fields);
    assert f[0] == h[0] && f[1] == h[1] && f[2] == h[2] && f[3] == h[3] && f[4] == h[4];
    assert f[..|f| - 2] == h;
    assert Word(f[1], f[2]) == n;
    assert f[|f| - 2] == Checksum(h);
  }

  // what stands where in it
  lemma EnvelopeReads(id: word16, fields: seq<byte>)
    requires |fields| + 7 < WORD16
    ensures var f := Framed(id, fields);
      && f[0] == f[|f| - 1] == FLAG && Value(f[1..3]) == |f| && Value(f[3..5]) == id
      && f[|f| - 2] == Checksum(f[..|f| - 2]) && f[5..|f| - 2] == fields
  {
    Ranges();
    var f := Framed(id, fields);
    var n: word16 := |f|;
    ModSmall(n, WORD16);
    assert f[..|f| - 2] == Head(id, fields);
    assert f[1..3] == BigEndian(n, 2) && f[3..5] == BigEndian(id, 2);
    ReadBack(f, 1, n, 2);
    ReadBack(f, 3, id, 2);
    assert f[5..|f| - 2] == fields;
  }

  // the scanner takes an encoded message as one whole frame with its own length and id
  lemma ScannerAccepts(id: word16, fields: seq<byte>, idIn: nat, len: nat, found: nat)
    requires 1 <= |fields| <= MAX_FRAME - 7
    requires Reports(Pending(Framed(id, fields)), idIn, len, found)
    ensures Pending(Framed(id, fields)) == Framed(id, fields)
    ensures len == |Framed(id, fields)| && found == id
  {
    var f := Framed(id, fields);
    FramedIsFrame(id, fields);
    assert f[..|f|] == f;
    AcceptIsFrame(f, |f|);
    assert f[0..] == f;
  }

  // flag, room for the length, and id
  method Start(buf: array<byte>, id: word16) returns (p: nat)
    requires buf.Length >= 5
    modifies buf
    ensures p == 5 && buf[..5] == [FLAG, 0, 0] + BigEndian(id, 2)
  {
    p := WriteByte(buf, 0, FLAG);
    p := WriteWord(buf, p, 0);
    assert BigEndian(0, 2) == BigEndian(0, 1) + [0] && BigEndian(0, 1) == BigEndian(0, 0) + [0];
    p := WriteWord(buf, p, id);
  }

  method WriteLength(buf: array<byte>, p: nat, id: word16, ghost fields: seq<byte>)
    requires 5 <= p <= buf.Length && buf[..p] == [FLAG, 0, 0] + BigEndian(id, 2) + fields
    modifies buf
    ensures buf[..p] == Head(id, fields) && buf[p..] == old(buf[p..])
  {
    ghost var was, length := buf[..p], BigEndian((p + 2) % WORD16, 2);
    assert was[3..] == BigEndian(id, 2) + fields;
    var _ := WriteWord(buf, 1, (p + 2) % WORD16);
    assert buf[..3] == [FLAG] + length;
    assert buf[..p] == buf[..3] + buf[3..][..p - 3] && buf[3..][..p - 3] == was[3..];
    Assoc([FLAG] + length, BigEndian(id, 2), fields);
  }

  // length, checksum and flag
  method Finish(buf: array<byte>, p: nat, id: word16, ghost fields: seq<byte>) returns (n: nat)
    requires p + 2 <= buf.Length && p >= 5 && buf[..p] == [FLAG, 0, 0] + BigEndian(id, 2) + fields
    modifies buf
    ensures n == p + 2 && buf[..n] == Framed(id, fields)
  {
    WriteLength(buf, p, id, fields);
    var checksum := ProtocolChecksum(buf[..p]);
    n := WriteByte(buf, p, checksum);
    n := WriteByte(buf, n, FLAG);
  }
}
