// The power-of-two ring buffer with wrapping 32-bit counters, against the byte sequence it holds.
module Kfifo {
  import opened Arithmetic
  import opened Bytes

  // unsigned 32-bit arithmetic
  function Wrap(x: int): nat {
    x % WORD
  }

  function Min(a: nat, b: nat): nat {
    if a > b then b else a
  }

  // i places after head in a ring
  function PlaceAfter(size: nat, head: nat, i: nat): nat
    requires head < size && i <= size
  {
    if head + i < size then head + i else head + i - size
  }

  // n bytes of a ring, from head
  ghost function Window(ring: seq<byte>, head: nat, n: nat): (w: seq<byte>)
    requires head < |ring| && n <= |ring|
    ensures |w| == n
  {
    seq(n, i requires 0 <= i < n => ring[PlaceAfter(|ring|, head, i)])
  }

  // data written behind a window, in one piece or in two
  lemma WindowAppend(ring: seq<byte>, head: nat, n: nat, data: seq<byte>)
    requires head < |ring| && n + |data| <= |ring|
    ensures var at := PlaceAfter(|ring|, head, n); var l := Min(|data|, |ring| - at);
      Window(Overwrite(Overwrite(ring, at, data[..l]), 0, data[l..]), head, n + |data|) == Window(ring, head, n) + data
  {
    var at := PlaceAfter(|ring|, head, n);
    var l := Min(|data|, |ring| - at);
    var ring1 := Overwrite(ring, at, data[..l]);
    var ring2 := Overwrite(ring1, 0, data[l..]);
    forall i | 0 <= i < n + |data|
      ensures Window(ring2, head, n + |data|)[i] == (Window(ring, head, n) + data)[i]
    {
      var p := PlaceAfter(|ring|, head, i);
      assert ring2[p] == if p < |data| - l then data[l + p] else ring1[p];
    }
  }

  lemma WindowDrop(ring: seq<byte>, head: nat, n: nat, m: nat)
    requires head < |ring| && m <= n <= |ring|
    ensures Window(ring, PlaceAfter(|ring|, head, m), n - m) == Window(ring, head, n)[m..]
  {
  }

  // a window read in one piece or in two
  lemma WindowPieces(ring: seq<byte>, head: nat, n: nat)
    requires head < |ring| && n <= |ring|
    ensures var l := Min(n, |ring| - head);
      Window(ring, head, n) == ring[head..head + l] + ring[..n - l]
  {
  }

  lemma WrapOnce(x: int)
    ensures 0 <= x + WORD && x < 0 ==> Wrap(x) == x + WORD
    ensures 0 <= x < WORD ==> Wrap(x) == x
    ensures WORD <= x < 2 * WORD ==> Wrap(x) == x - WORD
  {
  }

  lemma FreeSpace(inn: nat, out: nat, size: nat)
    requires inn < WORD && out < WORD && Wrap(inn - out) <= size < WORD
    ensures Wrap(size - inn + out) == size - Wrap(inn - out)
    ensures Wrap(out + Wrap(inn - out)) == inn
  {
    WrapOnce(inn - out);
    WrapOnce(size - inn + out);
    WrapOnce(out + Wrap(inn - out));
  }

  // the distance between the counters follows them through the wrap
  lemma WrapDistance(inn: nat, out: nat, n: nat)
    requires inn < WORD && out < WORD && n < WORD
    ensures Wrap(inn - out) + n < WORD ==> Wrap(Wrap(inn + n) - out) == Wrap(inn - out) + n
    ensures n <= Wrap(inn - out) ==> Wrap(inn - Wrap(out + n)) == Wrap(inn - out) - n
  {
    WrapOnce(inn - out);
    WrapOnce(inn + n);
    WrapOnce(out + n);
    WrapOnce(Wrap(inn + n) - out);
    WrapOnce(inn - Wrap(out + n));
  }

  // n steps on a wrapping counter, modulo the size of the ring
  lemma StepMod(x: nat, n: nat, size: nat)
    requires x < WORD && n <= size < WORD && size > 0
    requires (x + n - WORD) % size == (x + n) % size
    ensures x % size < size && Wrap(x + n) % size == PlaceAfter(size, x % size, n)
  {
    ModAdd(x, n, size);
    if x + n >= WORD {
      assert Wrap(x + n) == x + n - WORD;
    } else {
      assert Wrap(x + n) == x + n;
    }
  }

  // masking a counter finds a place in the ring, and n steps on it finds the place n after that
  lemma MaskedStep(order: nat, x: nat, n: nat)
    requires order <= 31 && x < WORD && n <= Pow2(order)
    ensures BitAnd(x, Pow2(order) - 1) < Pow2(order)
    ensures BitAnd(Wrap(x + n), Pow2(order) - 1) == PlaceAfter(Pow2(order), BitAnd(x, Pow2(order) - 1), n)
  {
    MaskIsMod(x, order);
    MaskIsMod(Wrap(x + n), order);
    WrapInvisible(x + n, order);
    Pow2Bound(order);
    StepMod(x, n, Pow2(order));
  }

  lemma Pow2Bound(order: nat)
    requires order <= 31
    ensures Pow2(order) < WORD
  {
    Pow2Word();
    Pow2Grows(order, 31);
    assert Pow2(32) == 2 * Pow2(31);
  }

  // two pieces copied one behind the other
  lemma PiecesCopied(dst: seq<byte>, a: seq<byte>, b: seq<byte>)
    requires |a| + |b| <= |dst|
    ensures Overwrite(Overwrite(dst, 0, a), |a|, b) == a + b + dst[|a| + |b|..]
  {
  }

  class Kfifo {
    const buffer: array<byte>
    const size: nat
    ghost const order: nat
    var inn: nat
    var out: nat

    // fixed when the buffer is allocated
    ghost predicate Shape() {
      order <= 31 && size == Pow2(order) && buffer.Length == size > 0
    }

    ghost predicate Valid()
      reads this
    {
      Shape() && inn < WORD && out < WORD && Wrap(inn - out) <= size
    }

    constructor (size: nat, ghost order: nat)
      requires order <= 31 && size == Pow2(order)
      ensures Valid() && fresh(buffer) && this.size == size && Contents() == [] && inn == out == 0
    {
      MaskIsMod(0, order);
      this.size, this.order := size, order;
      buffer := new byte[size];
      inn, out := 0, 0;
    }

    ghost function Head(): (h: nat)
      requires Valid()
      reads this
      ensures h < size
    {
      MaskedStep(order, out, 0);
      BitAnd(out, size - 1)
    }

    ghost function Contents(): (s: seq<byte>)
      requires Valid()
      reads this, buffer
      ensures |s| == Wrap(inn - out) <= size
    {
      Window(buffer[..], Head(), Wrap(inn - out))
    }

    function Len(): (n: nat)
      requires Valid()
      reads this, buffer
      ensures n == |Contents()|
    {
      Wrap(inn - out)
    }

    method Reset()
      requires Shape()
      modifies this`inn, this`out
      ensures Valid() && Contents() == [] && inn == out == 0
    {
      inn, out := 0, 0;
    }

    // the free space, and the place behind the last byte
    lemma Room()
      requires Valid()
      ensures size < WORD && Wrap(size - inn + out) == size - Len()
      ensures BitAnd(inn, size - 1) == PlaceAfter(size, Head(), Len())
    {
      MaskedStep(order, out, Len());
      Pow2Bound(order);
      FreeSpace(inn, out, size);
    }

    method Put(data: seq<byte>) returns (n: nat)
      requires Valid() && |data| < WORD
      modifies this`inn, buffer
      ensures Valid() && n == Min(|data|, size - |old(Contents())|)
      ensures Contents() == old(Contents()) + data[..n]
      ensures inn == Wrap(old(inn) + n)
    {
      Room();
      n := Min(|data|, Wrap(size - inn + out));
      Append(data[..n]);
    }

    method Append(data: seq<byte>)
      requires Valid() && |Contents()| + |data| <= size
      modifies this`inn, buffer
      ensures Valid() && inn == Wrap(old(inn) + |data|)
      ensures Contents() == old(Contents()) + data
    {
      Room();
      var at := BitAnd(inn, size - 1);
      WindowAppend(buffer[..], Head(), Len(), data);
      Store(at, data);
      Grow(|data|);
    }

    // fifo->in += n, the n bytes behind the last one being in place
    method Grow(n: nat)
      requires Valid() && Len() + n <= size
      modifies this`inn
      ensures Valid() && inn == Wrap(old(inn) + n)
      ensures Contents() == old(Window(buffer[..], Head(), Len() + n))
    {
      Pow2Bound(order);
      WrapDistance(inn, out, n);
      inn := Wrap(inn + n);
    }

    // from place at to the end of the buffer, then the rest at its beginning
    method Store(at: nat, data: seq<byte>)
      requires buffer.Length == size && at < size && |data| <= size
      modifies buffer
      ensures var l := Min(|data|, size - at);
        buffer[..] == Overwrite(Overwrite(old(buffer[..]), at, data[..l]), 0, data[l..])
    {
      var l := Min(|data|, size - at);
      Memcpy(buffer, at, data[..l]);
      Memcpy(buffer, 0, data[l..]);
    }

    // fifo->out += n
    method Advance(n: nat)
      requires Valid() && n <= |Contents()|
      modifies this`out
      ensures Valid() && out == Wrap(old(out) + n)
      ensures Contents() == old(Contents())[n..]
    {
      MaskedStep(order, out, n);
      WrapDistance(inn, out, n);
      WindowDrop(buffer[..], Head(), Len(), n);
      out := Wrap(out + n);
    }

    method GetAhead(dst: array<byte>, max: nat) returns (n: nat)
      requires Valid() && max < WORD && dst != buffer && Min(max, |Contents()|) <= dst.Length
      modifies dst
      ensures n == Min(max, |Contents()|)
      ensures dst[..] == Contents()[..n] + old(dst[n..])
    {
      n := Min(max, Wrap(inn - out));
      var at := BitAnd(out, size - 1);
      assert at == Head();
      WindowPieces(buffer[..], at, n);
      Fetch(dst, at, n);
      assert Contents()[..n] == Window(buffer[..], at, n);
    }

    // from place at to the end of the buffer, then the rest from its beginning
    method Fetch(dst: array<byte>, at: nat, n: nat)
      requires buffer.Length == size && at < size && n <= size && dst != buffer && n <= dst.Length
      modifies dst
      ensures var l := Min(n, size - at);
        dst[..] == buffer[at..at + l] + buffer[..n - l] + old(dst[n..])
    {
      var l := Min(n, size - at);
      PiecesCopied(dst[..], buffer[at..at + l], buffer[..n - l]);
      Memcpy(dst, 0, buffer[at..at + l]);
      Memcpy(dst, l, buffer[..n - l]);
    }

    method Get(dst: array<byte>, max: nat) returns (n: nat)
      requires Valid() && max < WORD && dst != buffer && Min(max, |Contents()|) <= dst.Length
      modifies this`out, dst
      ensures Valid() && n == Min(max, |old(Contents())|)
      ensures dst[..] == old(Contents())[..n] + old(dst[n..])
      ensures Contents() == old(Contents())[n..]
      ensures out == Wrap(old(out) + n)
    {
      n := GetAhead(dst, max);
      Advance(n);
    }

    // on a FIFO that holds something, the tail is numerically ahead unless it alone has wrapped
    lemma AheadUnlessWrapped()
      requires Valid()
      ensures Contents() == [] <==> inn == out
      ensures Contents() != [] ==> (inn > out <==> out + |Contents()| < WORD)
    {
      WrapOnce(inn - out);
    }

    // drops the head, but only while the tail counter is numerically ahead
    method Pop()
      requires Valid()
      modifies this`out
      ensures Valid()
      ensures Contents() == if inn > old(out) then old(Contents())[1..] else old(Contents())
      ensures out == if inn > old(out) then old(out) + 1 else old(out)
    {
      if inn > out {
        Advance(1);
      }
    }
  }
}
