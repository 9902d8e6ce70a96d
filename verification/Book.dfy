// What the registry keeps: which connections are live, free or handed out, and the order of the index.
module Book {
  import opened Kfifo
  import opened Sequences
  import opened Arithmetic
  import opened Lists
  import opened RbTree

  const CONN_FREE := 0
  const CONN_ZNP := 1
  const CONN_SOCKET_CLIENT := 2
  const CONN_SOCKET_SERVER := 3
  const CONN_SOCKET_CMD := 4
  const FIFO_SIZE := 1024

  class Connection {
    var fd: int
    var kind: int
    var timestamp: int
    const rawfifo: Kfifo
    const list: ListHead
    const node: RbNode

    constructor (now: int)
      ensures fd == 0 && kind == CONN_FREE && timestamp == now
      ensures fresh(rawfifo) && fresh(rawfifo.buffer) && fresh(list) && fresh(node)
      ensures rawfifo.Valid() && rawfifo.size == FIFO_SIZE && rawfifo.Contents() == []
      ensures rawfifo.inn == rawfifo.out == 0
    {
      fd, kind, timestamp := 0, CONN_FREE, now;
      assert Pow2(8) == 256;
      rawfifo := new Kfifo(FIFO_SIZE, 10);
      list := new ListHead();
      node := new RbNode();
    }

    // what is reset when a connection is taken from the free list
    method Clear(now: int)
      requires rawfifo.Shape()
      modifies this, rawfifo`inn, rawfifo`out, node
      ensures rawfifo.Valid() && rawfifo.Contents() == [] && rawfifo.inn == rawfifo.out == 0
      ensures fd == 0 && kind == CONN_FREE && timestamp == now
      ensures node.rbParent == node.rbRight == node.rbLeft == null && node.rbColor == Red
    {
      rawfifo.Reset();
      timestamp := now;
      kind := CONN_FREE;
      fd := 0;
      node.rbParent, node.rbColor, node.rbRight, node.rbLeft := null, Red, null, null;
    }
  }

  // which connections exist, and where each of them is
  datatype Book = Book(live: seq<Connection>, free: seq<Connection>, handed: set<Connection>, byFd: seq<Connection>)

  ghost function Elements(s: seq<Connection>): set<Connection> {
    set c | c in s
  }

  ghost function Members(b: Book): set<Connection> {
    Elements(b.live) + Elements(b.free) + b.handed
  }

  ghost function Links(s: seq<Connection>): (r: seq<ListHead>)
    ensures |r| == |s|
  {
    seq(|s|, i requires 0 <= i < |s| => s[i].list)
  }

  ghost function NodesOf(s: seq<Connection>): (r: seq<RbNode>)
    ensures |r| == |s|
  {
    seq(|s|, i requires 0 <= i < |s| => s[i].node)
  }

  // two connections share none of their parts
  ghost predicate Apart(c: Connection, d: Connection) {
    c.list != d.list && c.node != d.node && c.rawfifo != d.rawfifo && c.rawfifo.buffer != d.rawfifo.buffer
  }

  // every connection is live, free or handed out, and only one of these; the index lists the live ones
  ghost predicate Sound(b: Book) {
    && Distinct(b.live) && Distinct(b.free) && Distinct(b.byFd)
    && Elements(b.live) !! Elements(b.free) && Elements(b.live) !! b.handed && Elements(b.free) !! b.handed
    && Elements(b.byFd) == Elements(b.live)
    && (forall c :: c in Members(b) ==> c.rawfifo.Shape())
    && forall c, d {:trigger Apart(c, d)} :: c in Members(b) && d in Members(b) && c != d ==> Apart(c, d)
  }

  // ---- what each operation does to the book

  ghost function Created(b: Book, c: Connection): Book {
    b.(handed := b.handed + {c})
  }

  ghost function Reused(b: Book): Book
    requires b.free != []
  {
    b.(free := b.free[1..], handed := b.handed + {b.free[0]})
  }

  ghost function Enlisted(b: Book, c: Connection, k: nat): Book
    requires k <= |b.byFd|
  {
    b.(live := b.live + [c], handed := b.handed - {c}, byFd := b.byFd[..k] + [c] + b.byFd[k..])
  }

  ghost function Retired(b: Book, c: Connection): Book {
    b.(live := Without(b.live, c), free := b.free + [c], byFd := Without(b.byFd, c))
  }

  // the connections in gone retired, in their order
  ghost function Swept(b: Book, gone: set<Connection>): Book {
    b.(live := Minus(b.live, gone), free := b.free + Only(b.live, gone), byFd := Minus(b.byFd, gone))
  }

  // half way through a sweep: the first i live connections have been looked at
  ghost function SweptTo(b: Book, gone: set<Connection>, i: nat): Book
    requires i <= |b.live|
  {
    b.(live := Minus(b.live[..i], gone) + b.live[i..], free := b.free + Only(b.live[..i], gone),
       byFd := Minus(b.byFd, gone * Elements(b.live[..i])))
  }

  lemma SweepStart(b: Book, gone: set<Connection>)
    ensures SweptTo(b, gone, 0) == b
  {
    MinusNothing(b.byFd, gone * Elements(b.live[..0]));
  }

  lemma SweepLists(s: seq<Connection>, gone: set<Connection>, i: nat)
    requires Distinct(s) && i < |s|
    ensures var c, was, now := s[i], Minus(s[..i], gone) + s[i..], Minus(s[..i + 1], gone) + s[i + 1..];
      && c in was && now == (if c in gone then Without(was, c) else was)
      && Only(s[..i + 1], gone) == if c in gone then Only(s[..i], gone) + [c] else Only(s[..i], gone)
  {
    var c, done, rest := s[i], Minus(s[..i], gone), s[i + 1..];
    assert s[..i + 1] == s[..i] + [c] && s[i..] == [c] + rest;
    MinusSnoc(s[..i], c, gone);
    Assoc(done, [c], rest);
    if c in gone {
      MinusMember(s[..i], gone, c);
      WithoutAt(done, c, rest);
    }
  }

  lemma SweepIndex(s: seq<Connection>, live: seq<Connection>, gone: set<Connection>, i: nat)
    requires i < |live|
    ensures var c, was, now := live[i], gone * Elements(live[..i]), gone * Elements(live[..i + 1]);
      Minus(s, now) == if c in gone then Without(Minus(s, was), c) else Minus(s, was)
  {
    var c, was := live[i], gone * Elements(live[..i]);
    assert live[..i + 1] == live[..i] + [c];
    assert Elements(live[..i + 1]) == Elements(live[..i]) + {c};
    assert gone * Elements(live[..i + 1]) == if c in gone then was + {c} else was;
    WithoutMinus(s, was, c);
  }

  lemma SweepStep(b: Book, gone: set<Connection>, i: nat)
    requires Sound(b) && i < |b.live|
    ensures var c, b', next := b.live[i], SweptTo(b, gone, i), SweptTo(b, gone, i + 1);
      && c in b'.live && next == if c in gone then Retired(b', c) else b'
  {
    SweepLists(b.live, gone, i);
    SweepIndex(b.byFd, b.live, gone, i);
    Assoc(b.free, Only(b.live[..i], gone), [b.live[i]]);
  }

  lemma SweptIndex(b: Book, gone: set<Connection>, i: nat)
    requires i <= |b.live|
    ensures var k, live := |Minus(b.live[..i], gone)|, SweptTo(b, gone, i).live;
      |live| == k + |b.live| - i && live[k..] == b.live[i..] &&
      (i < |b.live| ==> live[k] == b.live[i]) && (i + 1 < |b.live| ==> live[k + 1] == b.live[i + 1])
  {
  }

  lemma SweepEnd(b: Book, gone: set<Connection>)
    requires Sound(b) && gone <= Elements(b.live)
    ensures SweptTo(b, gone, |b.live|) == Swept(b, gone)
  {
    assert b.live[..|b.live|] == b.live && b.live[|b.live|..] == [];
    assert gone * Elements(b.live) == gone;
  }

  lemma CreatedSound(b: Book, c: Connection)
    requires Sound(b) && c !in Members(b) && c.rawfifo.Shape()
    requires forall d :: d in Members(b) ==> Apart(c, d) && Apart(d, c)
    ensures Sound(Created(b, c)) && Members(Created(b, c)) == Members(b) + {c}
  {
  }

  lemma ReusedSound(b: Book)
    requires Sound(b) && b.free != []
    ensures Sound(Reused(b)) && Members(Reused(b)) == Members(b)
  {
    assert b.free == [b.free[0]] + b.free[1..];
    assert Elements(b.free) == {b.free[0]} + Elements(b.free[1..]);
    assert Members(Reused(b)) == Members(b);
  }

  lemma EnlistedSound(b: Book, c: Connection, k: nat)
    requires Sound(b) && c in b.handed && k <= |b.byFd|
    ensures Sound(Enlisted(b, c, k)) && Members(Enlisted(b, c, k)) == Members(b)
  {
    var b' := Enlisted(b, c, k);
    assert Elements(b'.live) == Elements(b.live) + {c};
    assert b.byFd == b.byFd[..k] + b.byFd[k..];
    assert Elements(b'.byFd) == Elements(b.byFd) + {c};
    assert Members(b') == Members(b);
  }

  lemma RetiredSound(b: Book, c: Connection)
    requires Sound(b) && c in b.live
    ensures Sound(Retired(b, c)) && Members(Retired(b, c)) == Members(b)
  {
    var b' := Retired(b, c);
    WithoutElements(b.live, c);
    WithoutElements(b.byFd, c);
    WithoutDistinct(b.live, c);
    WithoutDistinct(b.byFd, c);
    assert Elements(b'.live) == Elements(b.live) - {c};
    assert Elements(b'.byFd) == Elements(b.byFd) - {c};
    assert Elements(b'.free) == Elements(b.free) + {c};
    assert Members(b') == Members(b);
  }

  // ---- parts of connections tell the connections apart

  lemma SameNode(b: Book, c: Connection, d: Connection)
    requires Sound(b) && c in Members(b) && d in Members(b) && (c.node == d.node || c.list == d.list)
    ensures c == d
  {
    assert c != d ==> Apart(c, d);
  }

  lemma LinksOf(b: Book, s: seq<Connection>, c: Connection)
    requires Sound(b) && c in Members(b) && c !in s && forall d :: d in s ==> d in Members(b)
    ensures c.list !in Links(s) && c.node !in NodesOf(s)
  {
    if c.list in Links(s) {
      var i :| 0 <= i < |s| && Links(s)[i] == c.list;
      SameNode(b, c, s[i]);
    }
    if c.node in NodesOf(s) {
      var i :| 0 <= i < |s| && NodesOf(s)[i] == c.node;
      SameNode(b, c, s[i]);
    }
  }
}
