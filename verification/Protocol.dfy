// protocol_check and the receive loop, over the FIFO of a connection.
module Protocol {
  import opened Arithmetic
  import opened Bytes
  import opened Kfifo
  import opened Sequences
  import opened Frames
  import opened Book

  const BUFLEN := 1024

  // the tail counter has not wrapped past the head counter
  ghost predicate Unwrapped(f: Kfifo)
    reads f
  {
    f.out <= f.inn
  }

  ghost predicate Ready(c: Connection)
    reads c.rawfifo
  {
    c.rawfifo.Valid() && c.rawfifo.size == FIFO_SIZE
  }

  // what protocol_check reports about the bytes from its stop on; idIn is what the caller put in messageid
  ghost predicate Reports(s: seq<byte>, idIn: nat, len: nat, id: nat) {
    match Judge(s)
    case Reject => len == 0 && id == idIn
    case Wait => len == 0 && id == HALFPACK
    case Accept(n) => len == n <= |s| && id == FrameId(s[..n])
  }

  method ProtocolCheck(c: Connection, idIn: nat) returns (len: nat, id: nat)
    requires Ready(c)
    modifies c.rawfifo`out
    ensures Ready(c) && Reports(Pending(old(c.rawfifo.Contents())), idIn, len, id)
    ensures c.rawfifo.Contents()
         == if old(Unwrapped(c.rawfifo)) then Pending(old(c.rawfifo.Contents())) else old(c.rawfifo.Contents())
    ensures old(Unwrapped(c.rawfifo)) ==> Unwrapped(c.rawfifo)
    ensures !old(Unwrapped(c.rawfifo)) ==> c.rawfifo.out == old(c.rawfifo.out)
  {
    var buf := new byte[BUFLEN](_ => 0);
    var left := c.rawfifo.GetAhead(buf, BUFLEN);
    assert buf[..left] == c.rawfifo.Contents();
    if left == 0 {
      return 0, idIn;
    }
    len, id := Scan(c, buf[..left], idIn);
  }

  // the scan has reached position p of s and dropped what is before it, if it can drop anything
  ghost predicate Scanning(c: Connection, s: seq<byte>, p: nat, fits: bool, head: nat)
    requires p <= |s|
    reads c.rawfifo, c.rawfifo.buffer
  {
    && Ready(c) && Pending(s) == Pending(s[p..])
    && c.rawfifo.Contents() == (if fits then s[p..] else s)
    && (fits <==> Unwrapped(c.rawfifo)) && (!fits ==> c.rawfifo.out == head)
  }

  // the scan over a copy of what the FIFO holds
  method Scan(c: Connection, s: seq<byte>, idIn: nat) returns (len: nat, id: nat)
    requires Ready(c) && s == c.rawfifo.Contents()
    modifies c.rawfifo`out
    ensures Ready(c) && Reports(Pending(s), idIn, len, id)
    ensures c.rawfifo.Contents() == if old(Unwrapped(c.rawfifo)) then Pending(s) else s
    ensures old(Unwrapped(c.rawfifo)) ==> Unwrapped(c.rawfifo)
    ensures !old(Unwrapped(c.rawfifo)) ==> c.rawfifo.out == old(c.rawfifo.out)
  {
    ghost var fits, head := Unwrapped(c.rawfifo), c.rawfifo.out;
    var p, left := 0, |s|;
    assert s[0..] == s;
    while left > 0
      invariant 0 <= p <= |s| && left == |s| - p && Scanning(c, s, p, fits, head)
      decreases left
    {
      var verdict := JudgeAt(s, p, left);
      if verdict != Reject {
        Stopped(s, p);
        len, id := Answer(s, p, verdict, idIn);
        return;
      }
      Skip(c, s, p, fits, head);
      p, left := p + 1, left - 1;
    }
    NothingPending(s, idIn);
    return 0, idIn;
  }

  lemma NothingPending(s: seq<byte>, idIn: nat)
    requires Pending(s) == Pending(s[|s|..])
    ensures Pending(s) == [] == s[|s|..] && Reports(Pending(s), idIn, 0, idIn)
  {
  }

  // the byte at p starts a frame, may start one, or is to be skipped
  method JudgeAt(s: seq<byte>, p: nat, left: nat) returns (verdict: Verdict)
    requires p < |s| && left == |s| - p
    ensures verdict == Judge(s[p..])
  {
    if s[p] != FLAG {
      return Reject;
    }
    if left <= 2 {
      return Wait;
    }
    var n := Word(s[p + 1], s[p + 2]);
    if n < MIN_FRAME || n > MAX_FRAME {
      return Reject;
    }
    if n > left {
      return Wait;
    }
    var sum := ProtocolChecksum(s[p..p + n - 2]);
    JudgeWhole(s, p, n);
    verdict := if sum == s[p + n - 2] && s[p + n - 1] == FLAG then Accept(n) else Reject;
  }

  method Answer(s: seq<byte>, p: nat, verdict: Verdict, ghost idIn: nat) returns (len: nat, id: nat)
    requires p < |s| && verdict == Judge(s[p..]) != Reject && Pending(s) == s[p..]
    ensures Reports(Pending(s), idIn, len, id)
  {
    if verdict == Wait {
      return 0, HALFPACK;
    }
    len, id := verdict.n, Word(s[p + 3], s[p + 4]);
    JudgeWhole(s, p, len);
  }

  lemma JudgeWhole(s: seq<byte>, p: nat, n: nat)
    requires p < |s| && MIN_FRAME <= n <= MAX_FRAME && p + n <= |s| && s[p] == FLAG && Word(s[p + 1], s[p + 2]) == n
    ensures Judge(s[p..])
         == if Checksum(s[p..p + n - 2]) == s[p + n - 2] && s[p + n - 1] == FLAG then Accept(n) else Reject
    ensures Judge(s[p..]) == Accept(n) ==> Reports(s[p..], 0, n, Word(s[p + 3], s[p + 4]))
  {
    assert s[p..][..n - 2] == s[p..p + n - 2];
  }

  lemma Stopped(s: seq<byte>, p: nat)
    requires p < |s| && Judge(s[p..]) != Reject && Pending(s) == Pending(s[p..])
    ensures Pending(s) == s[p..]
  {
    assert s[p..][0..] == s[p..];
  }

  // connection_readbuf_pop at a rejected position
  method Skip(c: Connection, ghost s: seq<byte>, ghost p: nat, ghost fits: bool, ghost head: nat)
    requires p < |s| && Judge(s[p..]) == Reject && Scanning(c, s, p, fits, head)
    modifies c.rawfifo`out
    ensures Scanning(c, s, p + 1, fits, head)
  {
    c.rawfifo.AheadUnlessWrapped();
    c.rawfifo.Pop();
    assert s[p..][1..] == s[p + 1..];
  }

  // ---- the receive loop of event_recvmsg; dispatching a frame appends it to the result

  // how far the tail counter is behind the wrap that the head counter has passed
  ghost function Lag(f: Kfifo): nat
    reads f
  {
    if f.out <= f.inn || f.out > WORD then 0 else WORD - f.out
  }

  // which is how many of the bytes held the head counter no longer counts
  lemma LagUncounted(f: Kfifo)
    requires f.Valid()
    ensures Lag(f) == Less(|f.Contents()|, f.inn)
  {
    WrapOnce(f.inn - f.out);
  }

  // a 32-bit counter n steps on
  function Counted(tail: nat, n: nat): nat {
    if tail + n < WORD then tail + n else tail + n - WORD
  }

  // as much of the data as there is room for
  ghost function Fitting(held: seq<byte>, data: seq<byte>): (n: nat)
    ensures n <= |data|
  {
    Min(|data|, Less(FIFO_SIZE, |held|))
  }

  // is put behind the bytes held, and the drain lags by the bytes that the head counter no longer counts
  ghost function Handed(held: seq<byte>, tail: nat, data: seq<byte>): Drained {
    var n := Fitting(held, data);
    DrainLagging(held + data[..n], Less(|held| + n, Counted(tail, n)))
  }

  // what one receive makes of the bytes held and the head counter
  ghost predicate Received(held: seq<byte>, tail: nat, data: seq<byte>, frames: seq<seq<byte>>, held': seq<byte>,
                           tail': nat) {
    tail' == Counted(tail, Fitting(held, data)) && Handed(held, tail, data) == Drained(frames, held')
  }

  // a FIFO that lags and holds barren bytes only gets fuller, and stays so
  lemma HandedBarren(held: seq<byte>, tail: nat, data: seq<byte>)
    requires Barren(held) && |held| <= FIFO_SIZE && tail < |held|
    ensures var n := Fitting(held, data);
      && Counted(tail, n) == tail + n && |held + data[..n]| <= FIFO_SIZE
      && Handed(held, tail, data) == Drained([], held + data[..n]) && Barren(held + data[..n])
  {
    BarrenLonger(held, data[..Fitting(held, data)]);
  }

  // once it is full nothing changes any more
  lemma HandedFull(held: seq<byte>, tail: nat, data: seq<byte>)
    requires |held| == FIFO_SIZE && !Dispatches(held) && tail < |held|
    ensures Handed(held, tail, data) == Drained([], held) && Counted(tail, Fitting(held, data)) == tail
  {
    assert held + data[..0] == held;
  }

  // bytes that are stuck stay where they are in every state of the counters
  lemma HandedStuck(held: seq<byte>, tail: nat, data: seq<byte>)
    requires Stuck(held) && |held| <= FIFO_SIZE
    ensures var n := Fitting(held, data);
      && |held + data[..n]| <= FIFO_SIZE
      && Handed(held, tail, data) == Drained([], held + data[..n]) && Stuck(held + data[..n])
  {
    var u := data[..Fitting(held, data)];
    StuckLonger(held, u);
    StuckIsBarren(held);
    BarrenLonger(held, u);
  }

  // put what was read, then dispatch every whole frame
  method RecvMsg(c: Connection, data: seq<byte>) returns (frames: seq<seq<byte>>)
    requires Ready(c) && |data| < WORD
    modifies c.rawfifo`inn, c.rawfifo`out, c.rawfifo.buffer
    ensures Ready(c)
    ensures Received(old(c.rawfifo.Contents()), old(c.rawfifo.inn), data, frames, c.rawfifo.Contents(), c.rawfifo.inn)
    ensures old(Unwrapped(c.rawfifo)) && old(c.rawfifo.inn) + |data| < WORD ==> Unwrapped(c.rawfifo)
  {
    ghost var held, tail := c.rawfifo.Contents(), c.rawfifo.inn;
    var n := PutData(c, data);
    ghost var lag := Lag(c.rawfifo);
    frames := DispatchAll(c, held + data[..n], lag);
  }

  // s has been drained up to these frames and what the FIFO now holds
  ghost predicate Draining(c: Connection, s: seq<byte>, lag: nat, frames: seq<seq<byte>>)
    reads c.rawfifo, c.rawfifo.buffer
  {
    && Ready(c) && (lag == 0 ==> Lag(c.rawfifo) == 0)
    && Rest(s, lag, frames, c.rawfifo.Contents(), Lag(c.rawfifo))
  }

  // the loop over the whole frames held
  method DispatchAll(c: Connection, ghost s: seq<byte>, ghost lag: nat) returns (frames: seq<seq<byte>>)
    requires Ready(c) && s == c.rawfifo.Contents() && lag == Lag(c.rawfifo)
    modifies c.rawfifo`out
    ensures Ready(c) && (lag == 0 ==> Lag(c.rawfifo) == 0)
    ensures DrainLagging(s, lag) == Drained(frames, c.rawfifo.Contents())
  {
    frames := [];
    var more := true;
    while more
      invariant Draining(c, s, lag, frames)
      invariant !more ==> DrainLagging(s, lag) == Drained(frames, c.rawfifo.Contents())
      decreases more, c.rawfifo.Len()
    {
      more, frames := DispatchOne(c, s, lag, frames);
    }
  }

  // one round of the loop, of which the last dispatches nothing
  method DispatchOne(c: Connection, ghost s: seq<byte>, ghost lag: nat, done: seq<seq<byte>>)
    returns (more: bool, frames: seq<seq<byte>>)
    requires Draining(c, s, lag, done)
    modifies c.rawfifo`out
    ensures Draining(c, s, lag, frames)
    ensures if more then c.rawfifo.Len() < old(c.rawfifo.Len())
            else DrainLagging(s, lag) == Drained(frames, c.rawfifo.Contents())
  {
    ghost var now, left := c.rawfifo.Contents(), Lag(c.rawfifo);
    var len, id := ProtocolCheck(c, ILLEGAL);
    if id == ILLEGAL || id == HALFPACK {
      RestStops(s, lag, done, now, left, len, id);
      return false, done;
    }
    frames := Dispatch(c, s, lag, done, now, left, len, id);
    more := true;
  }

  // the frame reported is taken from the front
  method Dispatch(c: Connection, ghost s: seq<byte>, ghost lag: nat, done: seq<seq<byte>>,
                  ghost now: seq<byte>, ghost left: nat, len: nat, id: nat) returns (frames: seq<seq<byte>>)
    requires Ready(c) && (lag == 0 ==> left == 0) && left == Lag(c.rawfifo)
    requires Rest(s, lag, done, now, left) && Reports(Pending(now), ILLEGAL, len, id) && !Mistakable(id)
    requires c.rawfifo.Contents() == if left == 0 then Pending(now) else now
    modifies c.rawfifo`out
    ensures Draining(c, s, lag, frames) && c.rawfifo.Len() < old(c.rawfifo.Len())
  {
    RestGoesOn(s, lag, done, now, left, len, id);
    var frame := TakeFrame(c, len);
    frames := done + [frame];
  }

  // one receive after another on the same connection
  method RecvAll(c: Connection, chunks: seq<seq<byte>>) returns (frames: seq<seq<byte>>)
    requires Ready(c) && Unwrapped(c.rawfifo) && c.rawfifo.inn + |Joined(chunks)| < WORD
    requires FitsBehind(c.rawfifo.Contents(), chunks)
    modifies c.rawfifo`inn, c.rawfifo`out, c.rawfifo.buffer
    ensures Ready(c) && Unwrapped(c.rawfifo) && c.rawfifo.inn == old(c.rawfifo.inn) + |Joined(chunks)|
    ensures DrainAll(old(c.rawfifo.Contents()), chunks) == Drained(frames, c.rawfifo.Contents())
    decreases |chunks|
  {
    if chunks == [] {
      return [];
    }
    Unbounded(c.rawfifo, chunks[0]);
    var first := RecvMsg(c, chunks[0]);
    var others := RecvAll(c, chunks[1..]);
    frames := first + others;
  }

  // a portion that fits is put whole, and while no counter wraps nothing lags
  lemma Unbounded(f: Kfifo, data: seq<byte>)
    requires f.Valid() && Unwrapped(f) && f.inn + |data| < WORD
    ensures data[..|data|] == data && Less(|f.Contents()| + |data|, f.inn + |data|) == 0
  {
    WrapOnce(f.inn - f.out);
  }

  // two connections that are fed the same bytes, cut in two ways, dispatch the same frames and keep the same bytes
  method RecvBoth(c: Connection, d: Connection, a: seq<seq<byte>>, b: seq<seq<byte>>)
    returns (framesC: seq<seq<byte>>, framesD: seq<seq<byte>>)
    requires c.rawfifo != d.rawfifo && c.rawfifo.buffer != d.rawfifo.buffer
    requires Ready(c) && Unwrapped(c.rawfifo) && c.rawfifo.inn + |Joined(a)| < WORD && c.rawfifo.Contents() == []
    requires Ready(d) && Unwrapped(d.rawfifo) && d.rawfifo.inn + |Joined(b)| < WORD && d.rawfifo.Contents() == []
    requires Joined(a) == Joined(b) && FitsBehind([], a) && FitsBehind([], b)
    modifies c.rawfifo`inn, c.rawfifo`out, c.rawfifo.buffer, d.rawfifo`inn, d.rawfifo`out, d.rawfifo.buffer
    ensures Ready(c) && Ready(d) && framesC == framesD && c.rawfifo.Contents() == d.rawfifo.Contents()
  {
    SameStreamSameFrames(a, b);
    framesC := RecvAll(c, a);
    framesD := RecvAll(d, b);
  }

  // connection_get of one whole frame
  method TakeFrame(c: Connection, len: nat) returns (frame: seq<byte>)
    requires Ready(c) && len <= |c.rawfifo.Contents()|
    modifies c.rawfifo`out
    ensures Ready(c) && frame == old(c.rawfifo.Contents())[..len]
    ensures c.rawfifo.Contents() == old(c.rawfifo.Contents())[len..]
    ensures Lag(c.rawfifo) == Less(old(Lag(c.rawfifo)), len)
  {
    WrapOnce(c.rawfifo.inn - c.rawfifo.out);
    WrapOnce(c.rawfifo.out + len);
    var buffer := new byte[1024](_ => 0);
    var got := c.rawfifo.Get(buffer, len);
    frame := buffer[..len];
  }

  // connection_put
  method PutData(c: Connection, data: seq<byte>) returns (n: nat)
    requires Ready(c) && |data| < WORD
    modifies c.rawfifo`inn, c.rawfifo.buffer
    ensures Ready(c) && n == Fitting(old(c.rawfifo.Contents()), data)
    ensures c.rawfifo.Contents() == old(c.rawfifo.Contents()) + data[..n]
    ensures c.rawfifo.inn == Counted(old(c.rawfifo.inn), n)
    ensures Lag(c.rawfifo) == Less(|old(c.rawfifo.Contents())| + n, c.rawfifo.inn)
    ensures old(Unwrapped(c.rawfifo)) && old(c.rawfifo.inn) + |data| < WORD ==> Lag(c.rawfifo) == 0
  {
    WrapOnce(c.rawfifo.inn + Min(|data|, FIFO_SIZE - c.rawfifo.Len()));
    n := c.rawfifo.Put(data);
    LagUncounted(c.rawfifo);
  }

  // of draining s, the frames are done and what now remains is still to be drained
  ghost predicate Rest(s: seq<byte>, lag: nat, frames: seq<seq<byte>>, now: seq<byte>, left: nat) {
    DrainLagging(s, lag) == Drained(frames + DrainLagging(now, left).frames, DrainLagging(now, left).rest)
  }

  lemma RestStops(s: seq<byte>, lag: nat, frames: seq<seq<byte>>, now: seq<byte>, left: nat, len: nat, id: nat)
    requires Rest(s, lag, frames, now, left) && Reports(Pending(now), ILLEGAL, len, id) && Mistakable(id)
    ensures DrainLagging(s, lag) == Drained(frames, if left == 0 then Pending(now) else now)
  {
    FirstStopIs(now);
    assert Judge(Pending(now)) == Reject ==> Pending(now) == [];
    assert frames + [] == frames;
  }

  lemma ReportedDispatches(now: seq<byte>, len: nat, id: nat)
    requires Reports(Pending(now), ILLEGAL, len, id) && !Mistakable(id)
    ensures Dispatches(now) && len == Judge(Pending(now)).n
  {
  }

  lemma RestGoesOn(s: seq<byte>, lag: nat, frames: seq<seq<byte>>, now: seq<byte>, left: nat, len: nat, id: nat)
    requires Rest(s, lag, frames, now, left) && Reports(Pending(now), ILLEGAL, len, id) && !Mistakable(id)
    ensures MIN_FRAME <= len <= |Pending(now)| <= |now|
    ensures var r := if left == 0 then Pending(now) else now;
      Rest(s, lag, frames + [r[..len]], r[len..], Less(left, len))
  {
    ReportedDispatches(now, len, id);
    LaggingDispatches(now, left, len);
    var r := if left == 0 then Pending(now) else now;
    Assoc(frames, [r[..len]], DrainLagging(r[len..], Less(left, len)).frames);
  }
}
