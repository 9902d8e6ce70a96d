// The events of event.c over the registry: on the heap they do what Peers says, and what BookRuns says of the book.
module Events {
  import opened Arithmetic
  import opened Bytes
  import opened Kfifo
  import opened Book
  import opened BookRuns
  import opened Connections
  import Sequences
  import opened Protocol
  import opened Peers

  // the fields of a connection and of its FIFO
  datatype View = View(fd: int, kind: int, timestamp: int, inn: nat, out: nat, ring: seq<byte>)

  ghost function ViewOf(c: Connection): View
    reads c`fd, c`kind, c`timestamp, c.rawfifo, c.rawfifo.buffer
  {
    View(c.fd, c.kind, c.timestamp, c.rawfifo.inn, c.rawfifo.out, c.rawfifo.buffer[..])
  }

  ghost predicate InOrder(f: Kfifo, v: View) {
    && f.Shape() && f.size == FIFO_SIZE == |v.ring|
    && v.inn < WORD && v.out < WORD && Wrap(v.inn - v.out) <= FIFO_SIZE
  }

  ghost function HeldIn(ring: seq<byte>, inn: nat, out: nat): seq<byte> {
    var head, n := BitAnd(out, FIFO_SIZE - 1), Wrap(inn - out);
    if head < |ring| && n <= |ring| then Window(ring, head, n) else []
  }

  // what they say of a peer
  ghost function PeerIn(v: View): Peer {
    Peer(v.kind, v.timestamp, v.inn, HeldIn(v.ring, v.inn, v.out))
  }

  lemma ViewSays(c: Connection)
    ensures InOrder(c.rawfifo, ViewOf(c)) <==> Ready(c)
    ensures Ready(c) ==> PeerIn(ViewOf(c)).held == c.rawfifo.Contents()
  {
  }

  // the live connections are those of the map, one for each descriptor
  ghost predicate Shown(live: set<Connection>, shot: map<Connection, View>, m: map<int, Peer>) {
    && live <= shot.Keys && (forall c :: c in shot ==> InOrder(c.rawfifo, shot[c]))
    && (forall c :: c in live ==> shot[c].fd in m && m[shot[c].fd] == PeerIn(shot[c]))
    && (forall fd :: fd in m ==> exists c :: c in live && shot[c].fd == fd)
    && (forall c, d :: c in live && d in live && shot[c].fd == shot[d].fd ==> c == d)
  }

  // ---- what happens to the map when connections come, go and change

  lemma ShownOpened(live: set<Connection>, shot: map<Connection, View>, m: map<int, Peer>, c: Connection, v: View)
    requires Shown(live, shot, m) && c !in live && v.fd !in m && InOrder(c.rawfifo, v)
    ensures Shown(live + {c}, shot[c := v], m[v.fd := PeerIn(v)])
  {
    var m', shot' := m[v.fd := PeerIn(v)], shot[c := v];
    forall fd | fd in m'
      ensures exists d :: d in live + {c} && shot'[d].fd == fd
    {
      if fd == v.fd {
        assert shot'[c].fd == fd;
      } else {
        var d: Connection :| d in live && shot[d].fd == fd;
        assert shot'[d].fd == fd;
      }
    }
  }

  lemma ShownChanged(live: set<Connection>, shot: map<Connection, View>, m: map<int, Peer>, c: Connection, v: View)
    requires Shown(live, shot, m) && c in live && v.fd == shot[c].fd && InOrder(c.rawfifo, v)
    ensures Shown(live, shot[c := v], m[v.fd := PeerIn(v)])
  {
    var m', shot' := m[v.fd := PeerIn(v)], shot[c := v];
    forall fd | fd in m'
      ensures exists d :: d in live && shot'[d].fd == fd
    {
      var d: Connection :| d in live && shot[d].fd == fd;
      assert shot'[d].fd == fd;
    }
  }

  lemma ShownClosed(live: set<Connection>, shot: map<Connection, View>, m: map<int, Peer>, c: Connection)
    requires Shown(live, shot, m) && c in live
    ensures Shown(live - {c}, shot, m - {shot[c].fd})
  {
    forall fd | fd in m - {shot[c].fd}
      ensures exists d :: d in live - {c} && shot[d].fd == fd
    {
      var d: Connection :| d in live && shot[d].fd == fd;
      assert d != c;
    }
  }

  lemma ShownSwept(live: set<Connection>, shot: map<Connection, View>, m: map<int, Peer>,
                   gone: set<Connection>, now: int, timeout: int)
    requires Shown(live, shot, m)
    requires forall c :: c in live ==> (c in gone <==> Silent(PeerIn(shot[c]), now, timeout))
    ensures Shown(live - gone, shot, Unsilent(m, now, timeout))
  {
    forall fd | fd in Unsilent(m, now, timeout)
      ensures exists d :: d in live - gone && shot[d].fd == fd
    {
      var d: Connection :| d in live && shot[d].fd == fd;
      assert d !in gone;
    }
  }

  // ---- the operations of the registry, seen by the peers

  // the registry in order, with these connections and this book
  ghost predicate Has(r: Registry, shot: map<Connection, View>, b: Book)
    reads r, r.Repr, shot.Keys`fd, shot.Keys`kind, shot.Keys`timestamp
    reads set c | c in shot :: c.rawfifo, set c | c in shot :: c.rawfifo.buffer
  {
    r.Valid() && r.book == b && r.all == shot.Keys && forall c :: c in shot ==> ViewOf(c) == shot[c]
  }

  // the tree and the lists are no part of a view
  method InsertUnseen(r: Registry, c: Connection, ghost b: Book) returns (ghost k: nat)
    requires r.Valid() && r.book == b && c in b.handed && forall d :: d in b.live ==> d.fd != c.fd
    modifies r, r.Repr
    ensures r.Valid() && k <= |b.byFd| && r.book == Enlisted(b, c, k)
    ensures forall d :: d in r.all ==> ViewOf(d) == old(ViewOf(d))
    ensures r.Repr == old(r.Repr)
  {
    r.RingsApart();
    k := r.Insert(c);
  }

  method Enlist(r: Registry, c: Connection, ghost shot: map<Connection, View>, ghost b: Book) returns (ghost k: nat)
    requires Has(r, shot, b) && c in b.handed && forall d :: d in b.live ==> d.fd != c.fd
    modifies r, r.Repr
    ensures k <= |b.byFd| && Has(r, shot, Enlisted(b, c, k)) && r.Repr == old(r.Repr)
  {
    k := InsertUnseen(r, c, b);
  }

  method Retire(r: Registry, c: Connection, ghost shot: map<Connection, View>, ghost b: Book)
    requires Has(r, shot, b) && c in r.book.live
    modifies r`book, r`liveLinks, r`freeLinks, r.root, r.root.Repr, r.Rings()
    ensures Has(r, shot, Retired(b, c))
  {
    r.Delete(c);
  }

  method Sweep(r: Registry, now: int, ghost shot: map<Connection, View>, ghost b: Book, ghost gone: set<Connection>)
    requires Has(r, shot, b) && gone == r.OverdueLive(now)
    modifies r`book, r`liveLinks, r`freeLinks, r.root, r.root.Repr, r.Rings()
    ensures Has(r, shot, Swept(b, gone))
  {
    r.CheckStatus(now);
  }

  lemma TakenPossible(b: Book, c: Connection)
    requires Sound(b)
    requires if b.free == [] then c !in Members(b) && Sound(Created(b, c)) else c == b.free[0]
    ensures Possible(b, Get(c))
    ensures Apply(b, Get(c)) == if b.free == [] then Created(b, c) else Reused(b)
  {
    if b.free == [] {
      assert c in Members(Created(b, c));
      assert forall d :: d in Members(b) ==> d in Members(Created(b, c));
    }
  }

  // a connection just taken
  ghost predicate Blank(f: Kfifo, v: View, now: int) {
    InOrder(f, v) && PeerIn(v) == Peer(CONN_FREE, now, 0, []) && v.fd == 0
  }

  method Take(r: Registry, now: int, ghost shot: map<Connection, View>, ghost b: Book)
    returns (c: Connection, ghost v: View)
    requires Has(r, shot, b) && forall d :: d in shot ==> InOrder(d.rawfifo, shot[d])
    modifies r, r.Repr
    ensures Possible(b, Get(c)) && c in r.book.handed && fresh(r.Repr - old(r.Repr))
    ensures Blank(c.rawfifo, v, now) && Has(r, shot[c := v], Apply(b, Get(c)))
  {
    c := r.GetFreeConn(now);
    v := ViewOf(c);
    ViewSays(c);
    TakenPossible(b, c);
  }

  // connection_init
  method Name(r: Registry, c: Connection, fd: int, kind: int, ghost shot: map<Connection, View>, ghost b: Book)
    requires Has(r, shot, b) && c in b.handed
    modifies c`fd, c`kind
    ensures Has(r, shot[c := shot[c].(fd := fd, kind := kind)], b)
  {
    r.Init(c, fd, kind);
  }

  lemma ReceivedIs(p: Peer, now: int, data: seq<byte>, frames: seq<seq<byte>>, held: seq<byte>, tail: nat)
    requires Received(p.held, p.tail, data, frames, held, tail)
    ensures Receive(p, now, data) == (Peer(p.kind, now, tail, held), frames)
  {
  }

  // what a receive makes of a view
  ghost predicate Heard(f: Kfifo, v: View, now: int, data: seq<byte>, frames: seq<seq<byte>>, v': View) {
    InOrder(f, v') && v'.fd == v.fd && (PeerIn(v'), frames) == Receive(PeerIn(v), now, data)
  }

  // the part of event_recvmsg for clients and servers
  method Hear(r: Registry, c: Connection, now: int, data: seq<byte>, ghost shot: map<Connection, View>, ghost b: Book)
    returns (frames: seq<seq<byte>>, ghost v: View)
    requires Has(r, shot, b) && c in b.live && c in shot && InOrder(c.rawfifo, shot[c]) && |data| < WORD
    modifies c`timestamp, c.rawfifo`inn, c.rawfifo`out, c.rawfifo.buffer
    ensures Heard(c.rawfifo, shot[c], now, data, frames, v) && Has(r, shot[c := v], b)
  {
    r.FifosApart(c);
    frames, v := ListenIn(r, c, now, data);
  }

  // nothing that the registry relies on is touched
  method ListenIn(r: Registry, c: Connection, now: int, data: seq<byte>) returns (frames: seq<seq<byte>>, ghost v: View)
    requires r.Valid() && c in r.all && InOrder(c.rawfifo, ViewOf(c)) && |data| < WORD
    modifies c`timestamp, c.rawfifo`inn, c.rawfifo`out, c.rawfifo.buffer
    ensures r.Valid() && v == ViewOf(c) && Heard(c.rawfifo, old(ViewOf(c)), now, data, frames, v)
  {
    r.RingsApart();
    ViewSays(c);
    frames, v := Listen(c, now, data);
    assert r.Owned() && r.Booked();
    assert r.LiveRing() && r.FreeRing();
    assert r.Indexed();
  }

  method Listen(c: Connection, now: int, data: seq<byte>) returns (frames: seq<seq<byte>>, ghost v: View)
    requires Ready(c) && |data| < WORD
    modifies c`timestamp, c.rawfifo`inn, c.rawfifo`out, c.rawfifo.buffer
    ensures v == ViewOf(c) && Heard(c.rawfifo, old(ViewOf(c)), now, data, frames, v)
  {
    ghost var p := PeerIn(ViewOf(c));
    ViewSays(c);
    c.timestamp := now;
    frames := RecvMsg(c, data);
    v := ViewOf(c);
    ViewSays(c);
    ReceivedIs(p, now, data, frames, c.rawfifo.Contents(), c.rawfifo.inn);
  }

  // ---- events

  ghost function Snapshot(r: Registry): map<Connection, View>
    reads r`all, r.all`fd, r.all`kind, r.all`timestamp
    reads set c | c in r.all :: c.rawfifo, set c | c in r.all :: c.rawfifo.buffer
  {
    map c | c in r.all :: ViewOf(c)
  }

  // the registry is in order, b is its book, and m what it knows of its descriptors
  ghost predicate Serves(r: Registry, m: map<int, Peer>, b: Book)
    reads r, r.Repr, r.all`fd, r.all`kind, r.all`timestamp
    reads set c | c in r.all :: c.rawfifo, set c | c in r.all :: c.rawfifo.buffer
  {
    Has(r, Snapshot(r), b) && Shown(Elements(b.live), Snapshot(r), m)
  }

  lemma Serving(r: Registry, shot: map<Connection, View>, m: map<int, Peer>, b: Book)
    requires Has(r, shot, b) && Shown(Elements(b.live), shot, m)
    ensures Serves(r, m, b)
  {
    assert Snapshot(r) == shot;
  }

  lemma RunsTwo(b: Book, c: Connection, k: nat)
    requires Possible(b, Get(c)) && Possible(Apply(b, Get(c)), Insert(c, k))
    ensures Runs(b, [Get(c), Insert(c, k)])
    ensures After(b, [Get(c), Insert(c, k)]) == Enlisted(Apply(b, Get(c)), c, k)
  {
    var ops := [Get(c), Insert(c, k)];
    assert ops[1..] == [Insert(c, k)];
    RunsOne(Apply(b, Get(c)), Insert(c, k));
  }

  lemma RunsOne(b: Book, op: Operation)
    requires Possible(b, op)
    ensures Runs(b, [op]) && After(b, [op]) == Apply(b, op)
  {
    assert [op][1..] == [];
  }

  // a run of operations, the book after it, and what is known of the descriptors then
  datatype Outcome = Outcome(ops: seq<Operation>, book: Book, peers: map<int, Peer>)

  ghost predicate Follows(b: Book, o: Outcome) {
    Runs(b, o.ops) && o.book == After(b, o.ops)
  }

  // event_accept, and the other places where a connection is opened
  method OpenConn(r: Registry, fd: int, kind: int, now: int, ghost m: map<int, Peer>, ghost b: Book)
    returns (ghost o: Outcome)
    requires Serves(r, m, b) && fd !in m
    modifies r, r.Repr
    ensures Serves(r, o.peers, o.book) && fresh(r.Repr - old(r.Repr))
    ensures Follows(b, o) && o.peers == m[fd := Peer(kind, now, 0, [])]
  {
    ghost var shot := Snapshot(r);
    var c;
    ghost var v;
    c, v := Take(r, now, shot, b);
    Name(r, c, fd, kind, shot[c := v], Apply(b, Get(c)));
    ghost var v' := v.(fd := fd, kind := kind);
    UpdateTwice(shot, c, v, v');
    o := Admit(r, c, shot, v', m, b);
  }

  lemma UpdateTwice(shot: map<Connection, View>, c: Connection, v: View, v': View)
    ensures shot[c := v][c := v'] == shot[c := v']
  {
  }

  // connrbtree_insert of a connection just acquired
  method Admit(r: Registry, c: Connection, ghost shot: map<Connection, View>, ghost v: View, ghost m: map<int, Peer>,
               ghost b: Book)
    returns (ghost o: Outcome)
    requires Possible(b, Get(c)) && c in Apply(b, Get(c)).handed && Has(r, shot[c := v], Apply(b, Get(c)))
    requires Sound(b) && Shown(Elements(b.live), shot, m) && v.fd !in m && InOrder(c.rawfifo, v)
    modifies r, r.Repr
    ensures Serves(r, o.peers, o.book) && r.Repr == old(r.Repr)
    ensures Follows(b, o) && o.peers == m[v.fd := PeerIn(v)]
  {
    ghost var b' := Apply(b, Get(c));
    NewDescriptor(r, b, c, shot, v, m);
    r.RingsApart();
    ghost var k := Enlist(r, c, shot[c := v], b');
    o := Outcome([Get(c), Insert(c, k)], Enlisted(b', c, k), m[v.fd := PeerIn(v)]);
    Admitted(b, c, k, shot, v, m, o);
    Serving(r, shot[c := v], o.peers, o.book);
  }

  lemma Admitted(b: Book, c: Connection, k: nat, shot: map<Connection, View>, v: View, m: map<int, Peer>, o: Outcome)
    requires Possible(b, Get(c)) && Possible(Apply(b, Get(c)), Insert(c, k))
    requires Shown(Elements(b.live), shot, m) && c !in b.live && v.fd !in m && InOrder(c.rawfifo, v)
    requires o == Outcome([Get(c), Insert(c, k)], Enlisted(Apply(b, Get(c)), c, k), m[v.fd := PeerIn(v)])
    ensures Follows(b, o) && Shown(Elements(o.book.live), shot[c := v], o.peers)
  {
    RunsTwo(b, c, k);
    ShownOpened(Elements(b.live), shot, m, c, v);
    assert Elements(o.book.live) == Elements(b.live) + {c};
  }

  lemma NewDescriptor(r: Registry, b: Book, c: Connection, shot: map<Connection, View>, v: View, m: map<int, Peer>)
    requires Possible(b, Get(c)) && Sound(b) && Has(r, shot[c := v], Apply(b, Get(c)))
    requires Shown(Elements(b.live), shot, m) && v.fd !in m
    ensures c.fd == v.fd && c !in b.live && forall d :: d in b.live ==> d.fd != v.fd
  {
    assert ViewOf(c) == v;
    assert c in b.free ==> c in Elements(b.free);
    forall d | d in b.live
      ensures d != c && d.fd != v.fd
    {
      assert d in Elements(b.live) && d != c ==> ViewOf(d) == shot[d];
      assert shot[d].fd in m;
    }
  }

  // event_close
  method CloseConn(r: Registry, fd: int, ghost m: map<int, Peer>, ghost b: Book) returns (ghost o: Outcome)
    requires Serves(r, m, b)
    modifies r, r.Repr
    ensures Serves(r, o.peers, o.book) && r.Repr == old(r.Repr)
    ensures Follows(b, o) && o.peers == m - {fd}
  {
    ghost var shot := Snapshot(r);
    o := Outcome([], b, m);
    var c, visited := r.GetConn(fd);
    if c == null {
      NotShown(r, fd, shot, m, b);
    } else {
      o := CloseFound(r, c, shot, m, b);
    }
  }

  // connrbtree_del of a connection just found
  method CloseFound(r: Registry, c: Connection, ghost shot: map<Connection, View>, ghost m: map<int, Peer>,
                    ghost b: Book)
    returns (ghost o: Outcome)
    requires Has(r, shot, b) && c in b.live && Shown(Elements(b.live), shot, m)
    modifies r, r.Repr
    ensures Serves(r, o.peers, o.book) && r.Repr == old(r.Repr)
    ensures Follows(b, o) && o.peers == m - {shot[c].fd}
  {
    r.RingsApart();
    Retire(r, c, shot, b);
    o := ClosedServes(r, b, c, shot, m);
  }

  lemma ClosedServes(r: Registry, b: Book, c: Connection, shot: map<Connection, View>, m: map<int, Peer>)
    returns (o: Outcome)
    requires Has(r, shot, Retired(b, c)) && c in b.live && Shown(Elements(b.live), shot, m)
    ensures Serves(r, o.peers, o.book) && Follows(b, o) && o.peers == m - {shot[c].fd}
  {
    o := Outcome([Delete(c)], Retired(b, c), m - {shot[c].fd});
    Closed(b, c, shot, m, o);
    Serving(r, shot, o.peers, o.book);
  }

  lemma NotShown(r: Registry, fd: int, shot: map<Connection, View>, m: map<int, Peer>, b: Book)
    requires Has(r, shot, b) && Shown(Elements(b.live), shot, m) && forall c :: c in b.live ==> c.fd != fd
    ensures fd !in m && m - {fd} == m
  {
    forall c | c in Elements(b.live)
      ensures shot[c].fd != fd
    {
      assert ViewOf(c) == shot[c];
    }
  }

  lemma Closed(b: Book, c: Connection, shot: map<Connection, View>, m: map<int, Peer>, o: Outcome)
    requires c in b.live && Shown(Elements(b.live), shot, m)
    requires o == Outcome([Delete(c)], Retired(b, c), m - {shot[c].fd})
    ensures Follows(b, o) && Shown(Elements(o.book.live), shot, o.peers)
  {
    RunsOne(b, Delete(c));
    ShownClosed(Elements(b.live), shot, m, c);
    Sequences.WithoutElements(b.live, c);
    assert Elements(o.book.live) == Elements(b.live) - {c};
  }

  // connlist_checkstatus
  method CheckConns(r: Registry, now: int, ghost m: map<int, Peer>, ghost b: Book) returns (ghost o: Outcome)
    requires Serves(r, m, b)
    modifies r, r.Repr
    ensures Serves(r, o.peers, o.book) && r.Repr == old(r.Repr)
    ensures Follows(b, o) && o.peers == Unsilent(m, now, r.timeout)
  {
    ghost var shot, gone := Snapshot(r), r.OverdueLive(now);
    r.RingsApart();
    SilentOnes(r, now, shot, b);
    Sweep(r, now, shot, b, gone);
    o := Outcome([BookRuns.Sweep(gone)], Swept(b, gone), Unsilent(m, now, r.timeout));
    Checked(b, gone, shot, m, now, r.timeout, o);
    Serving(r, shot, o.peers, o.book);
  }

  lemma SilentOnes(r: Registry, now: int, shot: map<Connection, View>, b: Book)
    requires Has(r, shot, b) && Elements(b.live) <= shot.Keys
    ensures forall c :: c in b.live ==> (c in r.OverdueLive(now) <==> Silent(PeerIn(shot[c]), now, r.timeout))
  {
    forall c | c in b.live
      ensures c in r.OverdueLive(now) <==> Silent(PeerIn(shot[c]), now, r.timeout)
    {
      assert c in Elements(b.live) && ViewOf(c) == shot[c];
    }
  }

  lemma Checked(b: Book, gone: set<Connection>, shot: map<Connection, View>, m: map<int, Peer>,
                now: int, timeout: int, o: Outcome)
    requires Shown(Elements(b.live), shot, m) && gone <= Elements(b.live)
    requires forall c :: c in b.live ==> (c in gone <==> Silent(PeerIn(shot[c]), now, timeout))
    requires o == Outcome([BookRuns.Sweep(gone)], Swept(b, gone), Unsilent(m, now, timeout))
    ensures Follows(b, o) && Shown(Elements(o.book.live), shot, o.peers)
  {
    RunsOne(b, BookRuns.Sweep(gone));
    ShownSwept(Elements(b.live), shot, m, gone, now, timeout);
    SweptLive(b, gone);
  }

  lemma SweptLive(b: Book, gone: set<Connection>)
    ensures Elements(Swept(b, gone).live) == Elements(b.live) - gone
  {
    var left := Sequences.Minus(b.live, gone);
    forall c | c in left || c in b.live
      ensures c in left <==> c in b.live && c !in gone
    {
      Sequences.MinusMember(b.live, gone, c);
    }
    assert Elements(left) == Elements(b.live) - gone;
  }

  // _check_command
  method CheckCommand(buffer: seq<byte>, command: byte) returns (found: bool)
    ensures found <==> command in buffer
  {
    for i := 0 to |buffer|
      invariant command !in buffer[..i]
    {
      if buffer[i] == command {
        return true;
      }
    }
    return false;
  }

  // the part of event_recvmsg for the command pipe
  method CommandConn(r: Registry, now: int, data: seq<byte>, ghost m: map<int, Peer>, ghost b: Book)
    returns (ghost o: Outcome)
    requires Serves(r, m, b)
    modifies r, r.Repr
    ensures Serves(r, o.peers, o.book) && r.Repr == old(r.Repr)
    ensures Follows(b, o) && o.peers == if CHECK in data then Unsilent(m, now, r.timeout) else m
  {
    o := Outcome([], b, m);
    var check := CheckCommand(data, CHECK);
    if check {
      o := CheckConns(r, now, m, b);
    }
  }

  // the part of event_recvmsg for clients and servers
  method HearFrom(r: Registry, c: Connection, now: int, data: seq<byte>, ghost shot: map<Connection, View>,
                  ghost m: map<int, Peer>, ghost b: Book)
    returns (frames: seq<seq<byte>>, ghost o: Outcome)
    requires Has(r, shot, b) && Shown(Elements(b.live), shot, m) && c in b.live && |data| <= BUFLEN
    modifies r, r.Repr
    ensures Serves(r, o.peers, o.book) && r.Repr == old(r.Repr) && Follows(b, o)
    ensures exists v :: Heard(c.rawfifo, shot[c], now, data, frames, v) && o.peers == m[shot[c].fd := PeerIn(v)]
  {
    assert c in Elements(b.live);
    ghost var v;
    frames, v := Hear(r, c, now, data, shot, b);
    ShownChanged(Elements(b.live), shot, m, c, v);
    o := Outcome([], b, m[v.fd := PeerIn(v)]);
    Serving(r, shot[c := v], o.peers, b);
  }

  // what a message does, by the type of the connection that gets it
  ghost predicate Handled(f: Kfifo, v: View, now: int, data: seq<byte>, m: map<int, Peer>, timeout: int,
                          frames: seq<seq<byte>>, m': map<int, Peer>) {
    if v.kind == CONN_SOCKET_CMD then m' == (if CHECK in data then Unsilent(m, now, timeout) else m) && frames == []
    else if Talks(v.kind) then exists v' :: Heard(f, v, now, data, frames, v') && m' == m[v.fd := PeerIn(v')]
    else m' == m && frames == []
  }

  lemma HandledIsNext(f: Kfifo, v: View, now: int, data: seq<byte>, m: map<int, Peer>, timeout: int,
                      frames: seq<seq<byte>>, m': map<int, Peer>)
    requires Handled(f, v, now, data, m, timeout, frames, m') && v.fd in m && m[v.fd] == PeerIn(v)
    ensures m' == Next(m, Message(v.fd, now, data), timeout) && frames == Answered(m, Message(v.fd, now, data))
  {
  }

  // event_recvmsg once the connection is found
  method MessageFound(r: Registry, c: Connection, now: int, data: seq<byte>, ghost shot: map<Connection, View>,
                      ghost m: map<int, Peer>, ghost b: Book)
    returns (frames: seq<seq<byte>>, ghost o: Outcome)
    requires Has(r, shot, b) && Shown(Elements(b.live), shot, m) && c in b.live && |data| <= BUFLEN
    requires c in shot && c.kind == shot[c].kind
    modifies r, r.Repr
    ensures Serves(r, o.peers, o.book) && r.Repr == old(r.Repr) && Follows(b, o)
    ensures Handled(c.rawfifo, shot[c], now, data, m, r.timeout, frames, o.peers)
  {
    frames, o := [], Outcome([], b, m);
    Serving(r, shot, m, b);
    if c.kind == CONN_SOCKET_CMD {
      o := CommandConn(r, now, data, m, b);
    } else if c.kind == CONN_SOCKET_CLIENT || c.kind == CONN_SOCKET_SERVER {
      frames, o := HearFrom(r, c, now, data, shot, m, b);
    }
  }

  // event_recvmsg
  method MessageConn(r: Registry, fd: int, now: int, data: seq<byte>, ghost m: map<int, Peer>, ghost b: Book)
    returns (frames: seq<seq<byte>>, ghost o: Outcome)
    requires Serves(r, m, b) && |data| <= BUFLEN
    modifies r, r.Repr
    ensures Serves(r, o.peers, o.book) && r.Repr == old(r.Repr)
    ensures Follows(b, o) && o.peers == Next(m, Message(fd, now, data), r.timeout)
    ensures frames == Answered(m, Message(fd, now, data))
  {
    ghost var shot := Snapshot(r);
    frames, o := [], Outcome([], b, m);
    var c, visited := r.GetConn(fd);
    if c == null {
      NotShown(r, fd, shot, m, b);
    } else {
      FoundShown(r, c, shot, m, b);
      frames, o := MessageFound(r, c, now, data, shot, m, b);
      HandledIsNext(c.rawfifo, shot[c], now, data, m, r.timeout, frames, o.peers);
    }
  }

  lemma FoundShown(r: Registry, c: Connection, shot: map<Connection, View>, m: map<int, Peer>, b: Book)
    requires Has(r, shot, b) && Shown(Elements(b.live), shot, m) && c in b.live
    ensures c in shot && InOrder(c.rawfifo, shot[c]) && shot[c].fd == c.fd && shot[c].kind == c.kind
    ensures c.fd in m && m[c.fd] == PeerIn(shot[c])
  {
    assert c in Elements(b.live) && ViewOf(c) == shot[c];
  }

  method Perform(r: Registry, e: Event, ghost m: map<int, Peer>, ghost b: Book)
    returns (frames: seq<seq<byte>>, ghost o: Outcome)
    requires Serves(r, m, b) && Legal(m, e)
    modifies r, r.Repr
    ensures Serves(r, o.peers, o.book) && fresh(r.Repr - old(r.Repr))
    ensures Follows(b, o) && o.peers == Next(m, e, r.timeout)
    ensures frames == Answered(m, e)
  {
    frames := [];
    match e
    case Open(fd, kind, now) => o := OpenConn(r, fd, kind, now, m, b);
    case Message(fd, now, data) => frames, o := MessageConn(r, fd, now, data, m, b);
    case Close(fd) => o := CloseConn(r, fd, m, b);
  }

  // ---- runs of events

  lemma {:induction false} RunsJoin(b: Book, ops: seq<Operation>, more: seq<Operation>)
    requires Runs(b, ops) && Runs(After(b, ops), more)
    ensures Runs(b, ops + more) && After(b, ops + more) == After(After(b, ops), more)
    decreases |ops|
  {
    if ops == [] {
      assert ops + more == more;
    } else {
      assert (ops + more)[1..] == ops[1..] + more;
      RunsJoin(Apply(b, ops[0]), ops[1..], more);
    }
  }

  // any run of events over a registry on the heap: what it knows of its descriptors and what is dispatched
  // are what the peers say, and its book is that of a run of the operations
  method RunEvents(r: Registry, es: seq<Event>, ghost m: map<int, Peer>, ghost b: Book)
    returns (sent: seq<seq<seq<byte>>>, ghost o: Outcome)
    requires Serves(r, m, b) && LegalRun(m, es, r.timeout)
    modifies r, r.Repr
    ensures Serves(r, o.peers, o.book) && fresh(r.Repr - old(r.Repr))
    ensures Follows(b, o) && o.peers == Played(m, es, r.timeout)
    ensures sent == Sent(m, es, r.timeout)
    decreases |es|
  {
    if es == [] {
      return [], Outcome([], b, m);
    }
    var frames, others;
    ghost var first, last;
    frames, first := Perform(r, es[0], m, b);
    others, last := RunEvents(r, es[1..], first.peers, first.book);
    sent, o := [frames] + others, Outcome(first.ops + last.ops, last.book, last.peers);
    RunsJoin(b, first.ops, last.ops);
  }

  lemma EmptySound()
    ensures Sound(EMPTY) && Elements(EMPTY.live) == {}
  {
  }

  // the same from the start
  method Start(timeout: int, es: seq<Event>) returns (r: Registry, sent: seq<seq<seq<byte>>>, ghost o: Outcome)
    requires LegalRun(map[], es, timeout)
    ensures fresh(r) && Serves(r, o.peers, o.book) && Follows(EMPTY, o)
    ensures o.peers == Played(map[], es, timeout) && sent == Sent(map[], es, timeout)
  {
    r := new Registry(timeout);
    EmptySound();
    sent, o := RunEvents(r, es, map[], EMPTY);
  }
}
