// What the events of the gateway mean for the peers behind its descriptors, without lists, trees or buffers.
module Peers {
  import opened Arithmetic
  import opened Bytes
  import opened Sequences
  import opened Book
  import opened Frames
  import opened Protocol

  // the command byte that asks for a sweep
  const CHECK: byte := 0x43

  // what is kept for a descriptor: besides type and time, the head counter and the bytes held
  datatype Peer = Peer(kind: int, timestamp: int, tail: nat, held: seq<byte>)

  datatype Event =
    | Open(fd: int, kind: int, now: int)
    | Message(fd: int, now: int, data: seq<byte>)
    | Close(fd: int)

  predicate Talks(kind: int) {
    kind == CONN_SOCKET_SERVER || kind == CONN_SOCKET_CLIENT
  }

  // silent for longer than the timeout
  predicate Silent(p: Peer, now: int, timeout: int) {
    Talks(p.kind) && now - p.timestamp > timeout
  }

  ghost function Unsilent(m: map<int, Peer>, now: int, timeout: int): map<int, Peer> {
    map fd | fd in m && !Silent(m[fd], now, timeout) :: m[fd]
  }

  // what a receive leaves, and the frames it dispatches
  ghost function Receive(p: Peer, now: int, data: seq<byte>): (Peer, seq<seq<byte>>) {
    var d := Handed(p.held, p.tail, data);
    (Peer(p.kind, now, Counted(p.tail, Fitting(p.held, data)), d.rest), d.frames)
  }

  // the kernel does not give out a descriptor that is open, and at most 1024 bytes are read at once
  predicate Legal(m: map<int, Peer>, e: Event) {
    match e
    case Open(fd, _, _) => fd !in m
    case Message(_, _, data) => |data| <= BUFLEN
    case Close(_) => true
  }

  // what is known of the descriptors after an event
  ghost function Next(m: map<int, Peer>, e: Event, timeout: int): map<int, Peer> {
    match e
    case Open(fd, kind, now) => m[fd := Peer(kind, now, 0, [])]
    case Message(fd, now, data) =>
      if fd !in m then m
      else if m[fd].kind == CONN_SOCKET_CMD then (if CHECK in data then Unsilent(m, now, timeout) else m)
      else if Talks(m[fd].kind) then m[fd := Receive(m[fd], now, data).0]
      else m
    case Close(fd) => m - {fd}
  }

  // the frames dispatched
  ghost function Answered(m: map<int, Peer>, e: Event): seq<seq<byte>> {
    if e.Message? && e.fd in m && Talks(m[e.fd].kind) then Receive(m[e.fd], e.now, e.data).1 else []
  }

  // ---- runs

  ghost predicate LegalRun(m: map<int, Peer>, es: seq<Event>, timeout: int)
    decreases |es|
  {
    es == [] || (Legal(m, es[0]) && LegalRun(Next(m, es[0], timeout), es[1..], timeout))
  }

  ghost function Played(m: map<int, Peer>, es: seq<Event>, timeout: int): map<int, Peer>
    decreases |es|
  {
    if es == [] then m else Played(Next(m, es[0], timeout), es[1..], timeout)
  }

  // the frames that each event dispatches
  ghost function Sent(m: map<int, Peer>, es: seq<Event>, timeout: int): seq<seq<seq<byte>>>
    decreases |es|
  {
    if es == [] then [] else [Answered(m, es[0])] + Sent(Next(m, es[0], timeout), es[1..], timeout)
  }

  // ---- one descriptor among the others

  predicate IsFor(e: Event, fd: int) {
    e.Message? && e.fd == fd
  }

  // what is read from one descriptor
  ghost function Stream(es: seq<Event>, fd: int): seq<seq<byte>> {
    if es == [] then [] else (if IsFor(es[0], fd) then [es[0].data] else []) + Stream(es[1..], fd)
  }

  // and dispatched from it, from what the run dispatches in all
  ghost function From(es: seq<Event>, sent: seq<seq<seq<byte>>>, fd: int): seq<seq<byte>>
    requires |es| == |sent|
  {
    if es == [] then [] else (if IsFor(es[0], fd) then sent[0] else []) + From(es[1..], sent[1..], fd)
  }

  lemma {:induction false} SentSize(m: map<int, Peer>, es: seq<Event>, timeout: int)
    ensures |Sent(m, es, timeout)| == |es|
    decreases |es|
  {
    if es != [] { SentSize(Next(m, es[0], timeout), es[1..], timeout); }
  }

  // the descriptor is neither closed nor swept
  ghost predicate Stays(m: map<int, Peer>, es: seq<Event>, fd: int, timeout: int)
    decreases |es|
  {
    fd in m && (es == [] || Stays(Next(m, es[0], timeout), es[1..], fd, timeout))
  }

  // room for the stream of a peer whose counter does not wrap meanwhile
  ghost predicate Roomy(p: Peer, stream: seq<seq<byte>>) {
    |p.held| <= p.tail && p.tail + |Joined(stream)| < WORD && FitsBehind(p.held, stream)
  }

  // a receive that fits is a drain
  lemma ReceiveFits(p: Peer, now: int, data: seq<byte>)
    requires |p.held + data| <= FIFO_SIZE && |p.held| <= p.tail && p.tail + |data| < WORD
    ensures var d := Drain(p.held + data);
      Receive(p, now, data) == (Peer(p.kind, now, p.tail + |data|, d.rest), d.frames)
  {
    assert data[..|data|] == data;
  }

  lemma RoomyNext(p: Peer, now: int, data: seq<byte>, stream: seq<seq<byte>>)
    requires Roomy(p, [data] + stream)
    ensures var d := Drain(p.held + data);
      Receive(p, now, data) == (Peer(p.kind, now, p.tail + |data|, d.rest), d.frames)
    ensures Roomy(Receive(p, now, data).0, stream)
  {
    var chunks := [data] + stream;
    assert chunks[0] == data && chunks[1..] == stream && |Joined(chunks)| == |data| + |Joined(stream)|;
    ReceiveFits(p, now, data);
    RestWithin(p.held + data);
  }

  // an event for another descriptor, or none, leaves a peer that stays as it is
  lemma Untouched(m: map<int, Peer>, e: Event, fd: int, timeout: int)
    requires fd in m && fd in Next(m, e, timeout) && Legal(m, e) && !IsFor(e, fd)
    ensures Next(m, e, timeout)[fd] == m[fd]
  {
  }

  // whatever else happens meanwhile, what a peer that stays sends is dispatched as if it were alone
  lemma {:induction false} AsIfAlone(m: map<int, Peer>, es: seq<Event>, fd: int, timeout: int)
    requires LegalRun(m, es, timeout) && Stays(m, es, fd, timeout)
    requires Talks(m[fd].kind) && Roomy(m[fd], Stream(es, fd))
    ensures fd in Played(m, es, timeout) && |Sent(m, es, timeout)| == |es|
    ensures DrainAll(m[fd].held, Stream(es, fd))
         == Drained(From(es, Sent(m, es, timeout), fd), Played(m, es, timeout)[fd].held)
    decreases |es|
  {
    SentSize(m, es, timeout);
    if es != [] {
      var e, m' := es[0], Next(m, es[0], timeout);
      var sent := Sent(m', es[1..], timeout);
      assert Sent(m, es, timeout)[1..] == sent;
      if IsFor(e, fd) {
        RoomyNext(m[fd], e.now, e.data, Stream(es[1..], fd));
        AsIfAlone(m', es[1..], fd, timeout);
        assert Stream(es, fd)[1..] == Stream(es[1..], fd);
      } else {
        Untouched(m, e, fd, timeout);
        assert Stream(es, fd) == Stream(es[1..], fd);
        AsIfAlone(m', es[1..], fd, timeout);
        assert From(es, Sent(m, es, timeout), fd) == From(es[1..], sent, fd);
      }
    }
  }

  // ---- how long a peer stays

  // a peer of type 4 asks for a sweep
  ghost predicate Sweeps(m: map<int, Peer>, e: Event) {
    e.Message? && e.fd in m && m[e.fd].kind == 4 && 0x43 in e.data
  }

  // not closed, and at no sweep silent for longer than the timeout since it was heard last
  ghost predicate Spared(m: map<int, Peer>, es: seq<Event>, fd: int, heard: int, timeout: int)
    decreases |es|
  {
    es == []
    || (es[0] != Close(fd) && (Sweeps(m, es[0]) ==> es[0].now - heard <= timeout)
        && Spared(Next(m, es[0], timeout), es[1..], fd, if IsFor(es[0], fd) then es[0].now else heard, timeout))
  }

  lemma StepSpares(m: map<int, Peer>, e: Event, fd: int, timeout: int)
    requires fd in m && Legal(m, e) && (m[fd].kind == 2 || m[fd].kind == 3)
    ensures fd in Next(m, e, timeout) <==> e != Close(fd) && (Sweeps(m, e) ==> e.now - m[fd].timestamp <= timeout)
    ensures fd in Next(m, e, timeout) ==>
      var p := Next(m, e, timeout)[fd];
      p.kind == m[fd].kind && p.timestamp == if IsFor(e, fd) then e.now else m[fd].timestamp
  {
  }

  // a client or server, of type 2 or 3, stays exactly as long as that
  lemma {:induction false} StaysWhileHeard(m: map<int, Peer>, es: seq<Event>, fd: int, timeout: int)
    requires LegalRun(m, es, timeout) && fd in m && (m[fd].kind == 2 || m[fd].kind == 3)
    ensures Stays(m, es, fd, timeout) <==> Spared(m, es, fd, m[fd].timestamp, timeout)
    decreases |es|
  {
    if es != [] {
      StepSpares(m, es[0], fd, timeout);
      if fd in Next(m, es[0], timeout) { StaysWhileHeard(Next(m, es[0], timeout), es[1..], fd, timeout); }
    }
  }

  // a peer of any other type until it is closed
  lemma {:induction false} StaysUntilClosed(m: map<int, Peer>, es: seq<Event>, fd: int, timeout: int)
    requires LegalRun(m, es, timeout) && fd in m && m[fd].kind != 2 && m[fd].kind != 3
    ensures Stays(m, es, fd, timeout) <==> Close(fd) !in es
    decreases |es|
  {
    if es != [] {
      var m' := Next(m, es[0], timeout);
      assert Close(fd) in es <==> es[0] == Close(fd) || Close(fd) in es[1..];
      if es[0] != Close(fd) {
        assert fd in m' && m'[fd].kind == m[fd].kind;
        StaysUntilClosed(m', es[1..], fd, timeout);
      }
    }
  }

  // so a client is served, from its opening on, exactly the frames of the concatenation of what it sends
  lemma ServedFromOpening(m: map<int, Peer>, e: Event, es: seq<Event>, timeout: int)
    requires e.Open? && Talks(e.kind) && LegalRun(m, [e] + es, timeout)
    requires Stays(Next(m, e, timeout), es, e.fd, timeout)
    requires |Joined(Stream(es, e.fd))| < WORD && FitsBehind([], Stream(es, e.fd))
    ensures var m' := Next(m, e, timeout);
      && |Sent(m', es, timeout)| == |es|
      && From(es, Sent(m', es, timeout), e.fd) == Drain(Joined(Stream(es, e.fd))).frames
  {
    assert ([e] + es)[1..] == es;
    AsIfAlone(Next(m, e, timeout), es, e.fd, timeout);
    ChunkingIrrelevant([], Stream(es, e.fd));
    assert [] + Joined(Stream(es, e.fd)) == Joined(Stream(es, e.fd));
  }

  // a run can be cut anywhere, for instance where a descriptor is opened
  lemma {:induction false} RunSplits(m: map<int, Peer>, es: seq<Event>, fs: seq<Event>, timeout: int)
    ensures Played(m, es + fs, timeout) == Played(Played(m, es, timeout), fs, timeout)
    ensures Sent(m, es + fs, timeout) == Sent(m, es, timeout) + Sent(Played(m, es, timeout), fs, timeout)
    ensures LegalRun(m, es + fs, timeout) <==> LegalRun(m, es, timeout) && LegalRun(Played(m, es, timeout), fs, timeout)
    decreases |es|
  {
    if es == [] {
      assert es + fs == fs;
    } else {
      var m', rest := Next(m, es[0], timeout), es[1..];
      assert (es + fs)[0] == es[0] && (es + fs)[1..] == rest + fs;
      RunSplits(m', rest, fs, timeout);
      Assoc([Answered(m, es[0])], Sent(m', rest, timeout), Sent(Played(m', rest, timeout), fs, timeout));
    }
  }

  // ---- peers that are never served again

  // what is held is stuck, or the tail counter lags and it is barren
  ghost predicate Halted(p: Peer) {
    |p.held| <= FIFO_SIZE && (Stuck(p.held) || (p.tail < |p.held| && Barren(p.held)))
  }

  lemma HaltedStays(p: Peer, now: int, data: seq<byte>)
    requires Halted(p)
    ensures Receive(p, now, data).1 == [] && Halted(Receive(p, now, data).0)
    ensures p.held <= Receive(p, now, data).0.held && Receive(p, now, data).0.timestamp == now
  {
    if Stuck(p.held) {
      HandedStuck(p.held, p.tail, data);
    } else {
      HandedBarren(p.held, p.tail, data);
    }
  }

  // whatever it sends, in portions of any size and through every wrap of the counters, nothing is dispatched
  // from it and nothing it holds is dropped
  lemma {:induction false} NeverServedAgain(m: map<int, Peer>, es: seq<Event>, fd: int, timeout: int)
    requires LegalRun(m, es, timeout) && Stays(m, es, fd, timeout)
    requires Talks(m[fd].kind) && Halted(m[fd])
    ensures fd in Played(m, es, timeout) && m[fd].held <= Played(m, es, timeout)[fd].held
    ensures |Sent(m, es, timeout)| == |es| && From(es, Sent(m, es, timeout), fd) == []
    decreases |es|
  {
    SentSize(m, es, timeout);
    if es != [] {
      var e, m' := es[0], Next(m, es[0], timeout);
      assert Sent(m, es, timeout)[1..] == Sent(m', es[1..], timeout);
      if IsFor(e, fd) {
        HaltedStays(m[fd], e.now, e.data);
      } else {
        Untouched(m, e, fd, timeout);
      }
      NeverServedAgain(m', es[1..], fd, timeout);
    }
  }

  // one read of 1024 zeros while the head counter wraps halts a peer that holds nothing
  lemma WrapHalts(kind: int, timestamp: int, now: int)
    ensures var p := Receive(Peer(kind, timestamp, WORD - 512, []), now, Zeros(FIFO_SIZE)).0;
      p == Peer(kind, now, 512, Zeros(FIFO_SIZE)) && Halted(p)
  {
    var s := Zeros(FIFO_SIZE);
    FullOfZeros();
    assert [] + s[..FIFO_SIZE] == s;
    assert Handed([], WORD - 512, s) == Drained([], s);
  }
}
