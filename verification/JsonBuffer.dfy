// The growing print buffer.
module JsonBuffer {
  import opened Arithmetic
  import opened Bytes

  // sizes stay within an int
  const LIMIT: nat := 0x4000_0000

  // the least power of two that is at least x
  method Pow2gt(x: nat) returns (r: nat, ghost n: nat)
    requires 0 < x <= LIMIT
    ensures r == Pow2(n) && x <= r <= LIMIT && (x > 1 ==> r < 2 * x)
  {
    var y := x - 1;
    ghost var x0 := y;
    SmearStart(x0);
    SmearMore(x0, 1, 1);
    y := BitOr(y, Shr(y, 1));
    SmearMore(x0, 2, 2);
    y := BitOr(y, Shr(y, 2));
    SmearMore(x0, 4, 4);
    y := BitOr(y, Shr(y, 4));
    SmearMore(x0, 8, 8);
    y := BitOr(y, Shr(y, 8));
    SmearMore(x0, 16, 16);
    y := BitOr(y, Shr(y, 16));
    Pow2Word();
    SmearAll(x0, 32);
    n := FillIsTight(x0);
    FillBelow(x0, 30);
    r := y + 1;
  }

  lemma SmearStart(x: nat)
    ensures Smear(x, 1) == x
  {
    assert Smear(x / 2, 0) == 0;
    BitOrZero(x);
  }

  lemma BitOrZero(x: nat)
    ensures BitOr(x, 0) == x
  {
  }

  lemma {:induction false} FillBelow(x: nat, k: nat)
    requires x < Pow2(k)
    ensures Fill(x) < Pow2(k)
    decreases k
  {
    if x > 0 {
      FillBelow(x / 2, k - 1);
    }
  }

  class PrintBuffer {
    var buffer: array<byte>
    var length: nat
    var offset: nat

    ghost predicate Valid()
      reads this
    {
      0 < length == buffer.Length && offset <= length
    }

    // what has been printed and passed
    ghost function Done(): (t: seq<byte>)
      requires Valid()
      reads this, buffer
    {
      buffer[..offset]
    }

    // the terminated text t, passed in part
    ghost predicate Shows(t: seq<byte>)
      requires Valid()
      reads this, buffer
    {
      offset <= |t| < length && buffer[..|t|] == t && buffer[|t|] == 0
    }

    constructor (prebuffer: nat)
      requires prebuffer > 0
      ensures Valid() && fresh(buffer) && offset == 0
    {
      buffer, length, offset := new byte[prebuffer], prebuffer, 0;
    }

    method Ensure(needed: nat)
      requires Valid() && 0 < needed && offset + needed <= LIMIT
      modifies this`buffer, this`length
      ensures Valid() && offset + needed <= length
      ensures buffer == old(buffer) || fresh(buffer)
      ensures old(length) <= length && buffer[..old(length)] == old(buffer[..])
    {
      var total := needed + offset;
      if total > length {
        var newsize, _ := Pow2gt(total);
        var newbuffer := new byte[newsize];
        Memcpy(newbuffer, 0, buffer[..]);
        buffer, length := newbuffer, newsize;
      }
    }

    // bytes written where ensure said, the offset left behind
    method Store(needed: nat, bytes: seq<byte>)
      requires Valid() && 0 < needed && |bytes| <= needed && offset + needed <= LIMIT
      modifies this`buffer, this`length, buffer
      ensures Valid() && (buffer == old(buffer) || fresh(buffer))
      ensures offset + |bytes| <= length && buffer[..offset + |bytes|] == old(Done()) + bytes
    {
      Ensure(needed);
      assert buffer[..offset] == buffer[..old(length)][..offset];
      Memcpy(buffer, offset, bytes);
    }

    method Add(needed: nat, bytes: seq<byte>, terminated: bool)
      requires Valid() && 0 < needed && |bytes| + (if terminated then 1 else 0) <= needed && offset + needed <= LIMIT
      modifies this, buffer
      ensures Valid() && (buffer == old(buffer) || fresh(buffer))
      ensures Done() == old(Done()) + bytes
    {
      Store(needed, if terminated then bytes + [0] else bytes);
      offset := offset + |bytes|;
      assert buffer[..offset] == (old(Done()) + (if terminated then bytes + [0] else bytes))[..offset];
    }

    // a terminated text behind the offset
    method Write(needed: nat, text: seq<byte>)
      requires Valid() && |text| < needed && offset + needed <= LIMIT
      modifies this, buffer
      ensures Valid() && (buffer == old(buffer) || fresh(buffer))
      ensures Shows(old(Done()) + text) && offset == old(offset)
    {
      Store(needed, text + [0]);
      ghost var all := old(Done()) + (text + [0]);
      assert buffer[..|all|] == all;
      assert buffer[..|all| - 1] == all[..|all| - 1] == old(Done()) + text;
      assert buffer[|all| - 1] == all[|all| - 1];
    }

    // offset + strlen
    method Update(ghost t: seq<byte>)
      requires Valid() && Shows(t) && 0 !in t
      modifies this`offset
      ensures Valid() && Done() == t
    {
      while buffer[offset] != 0
        invariant Valid() && Shows(t)
        decreases |t| - offset
      {
        offset := offset + 1;
      }
    }
  }
}
