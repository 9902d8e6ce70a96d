// What a frame is, how the scanner judges bytes, and what draining a stream means.
module Frames {
  import opened Bytes
  import opened Sequences

  const FLAG: byte := 0xCE
  const ILLEGAL := 0
  const HALFPACK := 255
  const MIN_FRAME := 8
  const MAX_FRAME := 2048
  // what the FIFO of a connection holds, Book.FIFO_SIZE
  const CAPACITY := 1024

  function Xor(a: byte, b: byte): byte {
    ((a as bv8) ^ (b as bv8)) as int
  }

  // protocol_checksum as a function of the bytes it covers
  function Checksum(s: seq<byte>): byte
    requires s != []
  {
    if |s| == 1 then s[0] else Xor(Checksum(s[..|s| - 1]), s[|s| - 1])
  }

  // a 16-bit word, most significant byte first
  function Word(hi: byte, lo: byte): nat {
    256 * hi + lo
  }

  method ProtocolChecksum(buf: seq<byte>) returns (sum: byte)
    requires buf != []
    ensures sum == Checksum(buf)
  {
    sum := buf[0];
    var i := 1;
    assert buf[..1] == [buf[0]];
    while i < |buf|
      invariant 1 <= i <= |buf| && sum == Checksum(buf[..i])
    {
      assert buf[..i + 1] == buf[..i] + [buf[i]];
      sum := Xor(sum, buf[i]);
      i := i + 1;
    }
    assert buf[..|buf|] == buf;
  }

  // ---- what a frame is

  ghost predicate IsFrame(f: seq<byte>) {
    && MIN_FRAME <= |f| <= MAX_FRAME
    && f[0] == FLAG && Word(f[1], f[2]) == |f|
    && f[|f| - 2] == Checksum(f[..|f| - 2]) && f[|f| - 1] == FLAG
  }

  function FrameId(f: seq<byte>): nat
    requires |f| >= 5
  {
    Word(f[3], f[4])
  }

  // s begins with a whole frame of n bytes
  ghost predicate StartsWith(s: seq<byte>, n: nat) {
    n <= |s| && IsFrame(s[..n])
  }

  // s can be continued to begin with a frame, and does not reach its end yet
  ghost predicate Unfinished(s: seq<byte>) {
    exists f :: IsFrame(f) && s < f
  }

  // ---- how the scanner judges the bytes from one position on

  datatype Verdict = Reject | Wait | Accept(n: nat)

  function Judge(s: seq<byte>): Verdict {
    if s == [] || s[0] != FLAG then Reject
    else if |s| <= 2 then Wait
    else
      var n := Word(s[1], s[2]);
      if n < MIN_FRAME || n > MAX_FRAME then Reject
      else if n > |s| then Wait
      else if Checksum(s[..n - 2]) == s[n - 2] && s[n - 1] == FLAG then Accept(n)
      else Reject
  }

  lemma AcceptIsFrame(s: seq<byte>, n: nat)
    ensures Judge(s) == Accept(n) <==> StartsWith(s, n)
  {
    if 2 <= n <= |s| {
      assert s[..n][..n - 2] == s[..n - 2];
    }
  }

  // the last byte of a length, or a wrong checksum just before the end, can leave the scanner waiting in vain
  ghost predicate WaitsInVain(s: seq<byte>) {
    || (|s| == 2 && s[1] > 8)
    || (|s| > 2 && |s| == Word(s[1], s[2]) - 1 && s[|s| - 1] != Checksum(s[..|s| - 1]))
  }

  // n bytes that begin with s, filled with zeros up to the checksum
  ghost function Completed(s: seq<byte>, n: nat): (f: seq<byte>)
    requires |s| < n && MIN_FRAME <= n
    ensures |f| == n && s < f
  {
    if |s| == n - 1 then s + [FLAG]
    else
      var body := s + Zeros(n - 2 - |s|);
      body + [Checksum(body), FLAG]
  }

  ghost function Zeros(n: nat): (z: seq<byte>)
    ensures |z| == n
  {
    seq(n, i => 0)
  }

  // the scanner reports a half packet exactly for unfinished frames, except where it waits in vain
  lemma WaitIsUnfinished(s: seq<byte>)
    requires s != []
    ensures Judge(s) == Wait && !WaitsInVain(s) <==> Unfinished(s)
  {
    if Judge(s) == Wait && !WaitsInVain(s) { WaitCompletes(s); }
    if f :| IsFrame(f) && s < f { UnfinishedWaits(s, f); }
  }

  lemma UnfinishedWaits(s: seq<byte>, f: seq<byte>)
    requires s != [] && IsFrame(f) && s < f
    ensures Judge(s) == Wait && !WaitsInVain(s)
  {
    assert forall i :: 0 <= i < |s| ==> s[i] == f[i];
    if |s| == |f| - 1 {
      assert f[..|f| - 2] == s[..|s| - 1];
    }
  }

  lemma WaitCompletes(s: seq<byte>)
    requires s != [] && Judge(s) == Wait && !WaitsInVain(s)
    ensures Unfinished(s)
  {
    var t := if |s| == 1 then s + [0, 8] else if |s| == 2 then (if s[1] == 0 then s + [8] else s + [0]) else s;
    var n := Word(t[1], t[2]);
    CompletedIsFrame(t, n);
    assert s < Completed(t, n);
  }

  lemma CompletedIsFrame(s: seq<byte>, n: nat)
    requires 3 <= |s| < n && MIN_FRAME <= n <= MAX_FRAME && s[0] == FLAG && Word(s[1], s[2]) == n
    requires |s| == n - 1 ==> s[|s| - 1] == Checksum(s[..|s| - 1])
    ensures IsFrame(Completed(s, n))
  {
    var f := Completed(s, n);
    if |s| == n - 1 {
      assert f[..n - 2] == s[..|s| - 1];
    } else {
      assert f[..n - 2] == s + Zeros(n - 2 - |s|);
    }
  }

  // ---- scanning for the first position that is not rejected

  ghost function FirstStop(s: seq<byte>): (i: nat)
    ensures i <= |s|
  {
    if s == [] || Judge(s) != Reject then 0 else 1 + FirstStop(s[1..])
  }

  lemma {:induction false} FirstStopIs(s: seq<byte>)
    ensures FirstStop(s) < |s| ==> Judge(s[FirstStop(s)..]) != Reject
    ensures forall j :: 0 <= j < FirstStop(s) ==> Judge(s[j..]) == Reject
  {
    if s != [] && Judge(s) == Reject {
      FirstStopIs(s[1..]);
      assert s[1..][FirstStop(s[1..])..] == s[FirstStop(s)..];
      forall j | 0 <= j < FirstStop(s)
        ensures Judge(s[j..]) == Reject
      {
        if j == 0 { assert s[0..] == s; } else { assert s[j..] == s[1..][j - 1..]; }
      }
    } else if s != [] {
      assert s[0..] == s;
    }
  }

  // the same position, said without the scanner: the first one where a whole frame begins,
  // a frame has begun and can still be finished, or the scanner waits in vain
  ghost predicate HoldsOn(s: seq<byte>) {
    s != [] && ((exists n :: StartsWith(s, n)) || Unfinished(s) || (Judge(s) == Wait && WaitsInVain(s)))
  }

  lemma HoldsOnIsStop(s: seq<byte>)
    ensures HoldsOn(s) <==> Judge(s) != Reject
  {
    if s != [] { WaitIsUnfinished(s); }
    if Judge(s).Accept? { AcceptIsFrame(s, Judge(s).n); }
    if n :| StartsWith(s, n) { AcceptIsFrame(s, n); }
  }

  lemma FirstStopHoldsOn(s: seq<byte>)
    ensures FirstStop(s) < |s| ==> HoldsOn(s[FirstStop(s)..])
    ensures forall j :: 0 <= j < FirstStop(s) ==> !HoldsOn(s[j..])
  {
    FirstStopIs(s);
    HoldsOnIsStop(s[FirstStop(s)..]);
    forall j | 0 <= j < FirstStop(s)
      ensures !HoldsOn(s[j..])
    {
      HoldsOnIsStop(s[j..]);
    }
  }

  // ---- draining a stream

  datatype Drained = Drained(frames: seq<seq<byte>>, rest: seq<byte>)

  // ids that the caller of the scanner cannot tell from its own signals
  predicate Mistakable(id: nat) {
    id == ILLEGAL || id == HALFPACK
  }

  // the bytes from the stop on
  ghost function Pending(s: seq<byte>): seq<byte> {
    s[FirstStop(s)..]
  }

  // the frames dispatched from s, and the bytes kept for later
  ghost function Drain(s: seq<byte>): Drained
    decreases |s|
  {
    var r := Pending(s);
    match Judge(r)
    case Reject => Drained([], [])
    case Wait => Drained([], r)
    case Accept(n) =>
      AcceptIsFrame(r, n);
      if Mistakable(FrameId(r[..n])) then Drained([], r)
      else
        var d := Drain(r[n..]);
        Drained([r[..n]] + d.frames, d.rest)
  }

  // a whole frame stands at the stop, and its id is dispatched
  ghost predicate Dispatches(s: seq<byte>) {
    var r := Pending(s);
    Judge(r).Accept? && !Mistakable(FrameId(r[..Judge(r).n]))
  }

  lemma DrainDispatches(s: seq<byte>)
    requires Dispatches(s)
    ensures StartsWith(Pending(s), Judge(Pending(s)).n)
    ensures var r, n := Pending(s), Judge(Pending(s)).n;
      Drain(s) == Drained([r[..n]] + Drain(r[n..]).frames, Drain(r[n..]).rest)
  {
    AcceptIsFrame(Pending(s), Judge(Pending(s)).n);
  }

  // more bytes do not change a verdict, except that waiting may end
  lemma JudgeStable(s: seq<byte>, t: seq<byte>)
    requires s != [] && Judge(s) != Wait
    ensures Judge(s + t) == Judge(s)
  {
    if |s| > 2 && s[0] == FLAG {
      var n := Word(s[1], s[2]);
      if MIN_FRAME <= n <= |s| {
        assert (s + t)[..n - 2] == s[..n - 2];
      }
    }
  }

  // rejected positions stay rejected; the search goes on from where it stopped
  lemma {:induction false} FirstStopResumes(s: seq<byte>, t: seq<byte>)
    ensures FirstStop(s + t) == FirstStop(s) + FirstStop(s[FirstStop(s)..] + t)
  {
    if s != [] && Judge(s) == Reject {
      JudgeStable(s, t);
      assert (s + t)[1..] == s[1..] + t;
      assert s[1..][FirstStop(s[1..])..] == s[FirstStop(s)..];
      FirstStopResumes(s[1..], t);
    } else {
      assert s[0..] == s;
    }
  }

  lemma PendingResumes(s: seq<byte>, t: seq<byte>)
    ensures Pending(s + t) == Pending(Pending(s) + t)
  {
    FirstStopResumes(s, t);
    assert (s + t)[FirstStop(s)..] == Pending(s) + t;
  }

  lemma DrainPending(s: seq<byte>, t: seq<byte>)
    requires Pending(s) == Pending(t)
    ensures Drain(s) == Drain(t)
  {
  }

  lemma FramedPending(s: seq<byte>, t: seq<byte>)
    requires Judge(Pending(s)).Accept?
    ensures Pending(s + t) == Pending(s) + t && Judge(Pending(s) + t) == Judge(Pending(s))
  {
    PendingResumes(s, t);
    JudgeStable(Pending(s), t);
    assert (Pending(s) + t)[0..] == Pending(s) + t;
  }

  lemma DrainFramed(s: seq<byte>, t: seq<byte>)
    requires Dispatches(s)
    ensures Judge(Pending(s)).n <= |Pending(s)|
    ensures var r, n := Pending(s), Judge(Pending(s)).n; var d := Drain(r[n..] + t);
      Drain(s + t) == Drained([r[..n]] + d.frames, d.rest)
  {
    var r, n := Pending(s), Judge(Pending(s)).n;
    AcceptIsFrame(r, n);
    FramedPending(s, t);
    AcceptIsFrame(r + t, n);
    assert (r + t)[..n] == r[..n] && (r + t)[n..] == r[n..] + t;
  }

  lemma DrainHolds(s: seq<byte>, t: seq<byte>)
    requires !Dispatches(s)
    ensures Drain(s) == Drained([], Pending(s)) && Drain(s + t) == Drain(Pending(s) + t)
  {
    FirstStopIs(s);
    PendingResumes(s, t);
    DrainPending(s + t, Pending(s) + t);
  }

  // draining in two portions: what the first one leaves goes in front of the second
  ghost predicate Splits(s: seq<byte>, t: seq<byte>) {
    var first := Drain(s);
    var second := Drain(first.rest + t);
    Drain(s + t) == Drained(first.frames + second.frames, second.rest)
  }

  lemma SplitsBehind(s: seq<byte>, t: seq<byte>, q: seq<byte>)
    requires Dispatches(s) && q == Pending(s)[Judge(Pending(s)).n..] && Splits(q, t)
    ensures Splits(s, t)
  {
    DrainDispatches(s);
    DrainFramed(s, t);
    Assoc([Pending(s)[..Judge(Pending(s)).n]], Drain(q).frames, Drain(Drain(q).rest + t).frames);
  }

  lemma SplitsHeld(s: seq<byte>, t: seq<byte>)
    requires !Dispatches(s)
    ensures Splits(s, t)
  {
    DrainHolds(s, t);
    NothingFirst(Drain(Pending(s) + t));
  }

  lemma NothingFirst(d: Drained)
    ensures Drained([] + d.frames, d.rest) == d
  {
    assert [] + d.frames == d.frames;
  }

  lemma Behind(s: seq<byte>) returns (q: seq<byte>)
    requires Dispatches(s)
    ensures Judge(Pending(s)).n <= |Pending(s)| && q == Pending(s)[Judge(Pending(s)).n..] && |q| < |s|
  {
    q := Pending(s)[Judge(Pending(s)).n..];
  }

  lemma {:induction false} DrainSplits(s: seq<byte>, t: seq<byte>)
    ensures Splits(s, t)
    decreases |s|
  {
    if Dispatches(s) {
      var q := Behind(s);
      DrainSplits(q, t);
      SplitsBehind(s, t, q);
    } else {
      SplitsHeld(s, t);
    }
  }

  // ---- a stream received in portions

  ghost function Joined(chunks: seq<seq<byte>>): seq<byte> {
    if chunks == [] then [] else chunks[0] + Joined(chunks[1..])
  }

  // each portion is drained together with what the earlier ones left
  ghost function DrainAll(kept: seq<byte>, chunks: seq<seq<byte>>): Drained
    decreases |chunks|
  {
    if chunks == [] then Drained([], kept)
    else
      var first := Drain(kept + chunks[0]);
      var others := DrainAll(first.rest, chunks[1..]);
      Drained(first.frames + others.frames, others.rest)
  }

  // nothing to dispatch in what has been drained
  lemma {:induction false} DrainSettles(s: seq<byte>)
    ensures Drain(Drain(s).rest) == Drained([], Drain(s).rest)
    decreases |s|
  {
    var r := Pending(s);
    match Judge(r)
    case Reject =>
    case Wait => assert r[0..] == r;
    case Accept(n) =>
      AcceptIsFrame(r, n);
      assert r[0..] == r;
      if !Mistakable(FrameId(r[..n])) { DrainSettles(r[n..]); }
  }

  // how a stream is cut into portions does not matter
  lemma {:induction false} ChunkingIrrelevant(kept: seq<byte>, chunks: seq<seq<byte>>)
    requires Drain(kept) == Drained([], kept)
    ensures DrainAll(kept, chunks) == Drain(kept + Joined(chunks))
    decreases |chunks|
  {
    if chunks == [] {
      assert kept + Joined(chunks) == kept;
    } else {
      var s := kept + chunks[0];
      assert kept + Joined(chunks) == s + Joined(chunks[1..]);
      DrainSplits(s, Joined(chunks[1..]));
      DrainSettles(s);
      ChunkingIrrelevant(Drain(s).rest, chunks[1..]);
    }
  }

  // two ways to cut the same stream dispatch the same frames and keep the same bytes
  lemma SameStreamSameFrames(a: seq<seq<byte>>, b: seq<seq<byte>>)
    requires Joined(a) == Joined(b)
    ensures DrainAll([], a) == DrainAll([], b)
  {
    ChunkingIrrelevant([], a);
    ChunkingIrrelevant([], b);
  }

  // every portion fits into the FIFO behind what draining the earlier ones kept
  ghost predicate FitsBehind(kept: seq<byte>, chunks: seq<seq<byte>>)
    decreases |chunks|
  {
    chunks == [] || (|kept + chunks[0]| <= CAPACITY && FitsBehind(Drain(kept + chunks[0]).rest, chunks[1..]))
  }

  // ---- draining while the tail counter has not followed the head counter through the wrap

  function Less(lag: nat, n: nat): nat {
    if lag <= n then 0 else lag - n
  }

  // for the first lag bytes nothing is skipped: a dispatch takes its bytes from the front, not from the stop
  ghost function DrainLagging(s: seq<byte>, lag: nat): Drained
    decreases |s|
  {
    if lag == 0 then Drain(s)
    else if !Dispatches(s) then Drained([], s)
    else
      var n := Judge(Pending(s)).n;
      var d := DrainLagging(s[n..], Less(lag, n));
      Drained([s[..n]] + d.frames, d.rest)
  }

  // nothing would have to be skipped before a frame as long as nothing can be
  ghost predicate Aligned(s: seq<byte>, lag: nat)
    decreases |s|
  {
    lag > 0 && Dispatches(s) ==>
      FirstStop(s) == 0 && var n := Judge(Pending(s)).n; Aligned(s[n..], Less(lag, n))
  }

  lemma LaggingDispatches(s: seq<byte>, lag: nat, n: nat)
    requires Dispatches(s) && n == Judge(Pending(s)).n
    ensures MIN_FRAME <= n <= |Pending(s)| <= |s|
    ensures var r := if lag == 0 then Pending(s) else s; var d := DrainLagging(r[n..], Less(lag, n));
      DrainLagging(s, lag) == Drained([r[..n]] + d.frames, d.rest)
  {
    DrainDispatches(s);
  }

  // the frames are the right ones exactly when nothing had to be skipped
  lemma {:induction false} LaggingFrames(s: seq<byte>, lag: nat)
    ensures DrainLagging(s, lag).frames == Drain(s).frames <==> Aligned(s, lag)
    decreases |s|
  {
    if lag > 0 && Dispatches(s) {
      var n := Judge(Pending(s)).n;
      DrainDispatches(s);
      LaggingFrames(s[n..], Less(lag, n));
      if FirstStop(s) == 0 {
        assert Pending(s) == s;
        SameTail(s[..n], DrainLagging(s[n..], Less(lag, n)).frames, Drain(s[n..]).frames);
      } else {
        FirstStopIs(s);
        AcceptIsFrame(s, n);
        assert s[0..] == s;
        assert DrainLagging(s, lag).frames[0] != Drain(s).frames[0];
      }
    }
  }

  lemma SameTail<T>(x: T, a: seq<T>, b: seq<T>)
    ensures [x] + a == [x] + b <==> a == b
  {
    assert ([x] + a)[1..] == a && ([x] + b)[1..] == b;
  }

  lemma StrayPending(b: byte, f: seq<byte>)
    requires b != FLAG && IsFrame(f)
    ensures Pending([b] + f) == f && Judge(f) == Accept(|f|)
  {
    var s := [b] + f;
    assert f[..|f|] == f;
    AcceptIsFrame(f, |f|);
    assert FirstStop(f) == 0;
    assert s[1..] == f && Judge(s) == Reject && FirstStop(s) == 1;
  }

  // one stray byte in front of a frame is enough
  lemma StrayByte(b: byte, f: seq<byte>, lag: nat)
    requires b != FLAG && IsFrame(f) && !Mistakable(FrameId(f)) && lag > 0
    ensures Drain([b] + f).frames == [f]
    ensures DrainLagging([b] + f, lag).frames != [] && DrainLagging([b] + f, lag).frames[0] == [b] + f[..|f| - 1]
  {
    var s := [b] + f;
    StrayPending(b, f);
    assert f[..|f|] == f && f[|f|..] == [];
    DrainDispatches(s);
    assert s[..|f|] == [b] + f[..|f| - 1];
  }

  // ---- what keeps the stream from moving on

  // a whole frame at the head is dispatched if and only if its id cannot be mistaken for a signal
  lemma DispatchedUnlessMistakable(s: seq<byte>, n: nat, t: seq<byte>)
    requires StartsWith(s, n)
    ensures Mistakable(FrameId(s[..n])) ==> Drain(s + t) == Drained([], s + t)
    ensures !Mistakable(FrameId(s[..n])) ==> Drain(s + t).frames != [] && Drain(s + t).frames[0] == s[..n]
  {
    AcceptIsFrame(s, n);
    JudgeStable(s, t);
    AcceptIsFrame(s + t, n);
    assert (s + t)[0..] == s + t && (s + t)[..n] == s[..n];
  }

  // which is to say: if and only if its fourth and fifth byte are neither 0 and 0 nor 0 and 255
  lemma DispatchedUnlessSignal(s: seq<byte>, n: nat, t: seq<byte>, id: nat)
    requires StartsWith(s, n) && id / 256 == s[3] && id % 256 == s[4]
    ensures id == 0 || id == 255 ==> Drain(s + t) == Drained([], s + t)
    ensures id != 0 && id != 255 ==> Drain(s + t).frames != [] && Drain(s + t).frames[0] == s[..n]
  {
    assert FrameId(s[..n]) == id;
    DispatchedUnlessMistakable(s, n, t);
  }

  // and whatever is dispatched is a frame with such an id
  lemma OnlyFrames(s: seq<byte>, k: nat, f: seq<byte>, id: nat)
    requires k < |Drain(s).frames| && f == Drain(s).frames[k]
    requires |f| >= 5 && id / 256 == f[3] && id % 256 == f[4]
    ensures IsFrame(f) && id != 0 && id != 255
  {
    DrainedIsFrame(s, k, f);
    assert FrameId(f) == id;
  }

  lemma {:induction false} DrainedIsFrame(s: seq<byte>, k: nat, f: seq<byte>)
    requires k < |Drain(s).frames| && f == Drain(s).frames[k]
    ensures IsFrame(f) && !Mistakable(FrameId(f))
    decreases |s|
  {
    FirstIsFrame(s);
    if k > 0 {
      var q := Behind(s);
      DrainTail(s, q, k);
      DrainedIsFrame(q, k - 1, f);
    }
  }

  lemma DrainTail(s: seq<byte>, q: seq<byte>, k: nat)
    requires Dispatches(s) && 0 < k < |Drain(s).frames|
    requires Judge(Pending(s)).n <= |Pending(s)| && q == Pending(s)[Judge(Pending(s)).n..]
    ensures k - 1 < |Drain(q).frames| && Drain(q).frames[k - 1] == Drain(s).frames[k]
  {
    DrainDispatches(s);
  }

  lemma FirstIsFrame(s: seq<byte>)
    requires Drain(s).frames != []
    ensures Dispatches(s) && IsFrame(Drain(s).frames[0]) && !Mistakable(FrameId(Drain(s).frames[0]))
  {
    DrainDispatches(s);
  }

  // draining dispatches nothing and drops nothing
  ghost predicate Idle(s: seq<byte>) {
    Drain(s) == Drained([], s)
  }

  // nothing that still fits behind s makes it move on
  ghost predicate Stuck(s: seq<byte>) {
    forall t :: |s + t| <= CAPACITY ==> Idle(s + t)
  }

  // what the bytes held say of it: a whole frame, which is held because of its id, or a length
  // that the range check lets pass and the FIFO cannot hold
  predicate Jammed(s: seq<byte>) {
    || Judge(s).Accept?
    || (|s| == 2 && 5 <= s[1] <= 7)
    || (|s| > 2 && Word(s[1], s[2]) > CAPACITY)
  }

  // bytes that are held are stuck exactly when they are jammed
  lemma StuckWhenJammed(s: seq<byte>)
    requires s != [] && |s| <= CAPACITY && Idle(s)
    ensures Stuck(s) <==> Jammed(s)
  {
    HeldStands(s);
    if Jammed(s) {
      forall t | |s + t| <= CAPACITY
        ensures Idle(s + t)
      {
        JammedStays(s, t);
      }
    } else {
      var t := Mover(s);
      Moves(s);
      assert !Idle(s + t);
    }
  }

  lemma HeldStands(s: seq<byte>)
    requires s != [] && Idle(s)
    ensures Judge(s) != Reject
  {
    if Judge(s) == Reject { DrainShrinks(s); }
  }

  // a rejected first byte is gone after a drain
  lemma DrainShrinks(s: seq<byte>)
    requires s != [] && Judge(s) == Reject
    ensures !Idle(s)
  {
    RestWithin(s);
  }

  lemma {:induction false} RestWithin(s: seq<byte>)
    ensures |Drain(s).rest| <= |Pending(s)|
    decreases |s|
  {
    var r := Pending(s);
    if Judge(r).Accept? {
      AcceptIsFrame(r, Judge(r).n);
      if !Mistakable(FrameId(r[..Judge(r).n])) { RestWithin(r[Judge(r).n..]); }
    }
  }

  lemma WaitingIsIdle(s: seq<byte>)
    requires Judge(s) == Wait
    ensures Idle(s)
  {
    assert s[0..] == s;
  }

  lemma JammedStays(s: seq<byte>, t: seq<byte>)
    requires s != [] && Idle(s) && Judge(s) != Reject && Jammed(s) && |s + t| <= CAPACITY
    ensures Idle(s + t)
  {
    if Judge(s).Accept? {
      var n := Judge(s).n;
      AcceptIsFrame(s, n);
      DispatchedUnlessMistakable(s, n, []);
      assert s + [] == s;
      DispatchedUnlessMistakable(s, n, t);
    } else if |s + t| == |s| {
      assert s + t == s;
    } else {
      assert (s + t)[1] == s[1];
      WaitingIsIdle(s + t);
    }
  }

  // bytes that fit behind s and make the scanner give its first byte up
  ghost function Mover(s: seq<byte>): seq<byte>
    requires s != []
  {
    if |s| == 1 then [0, 0]
    else if |s| == 2 then
      if s[1] == 0 || s[1] > 8 then [0] else if s[1] == 8 then [1] else Zeros(Word(s[1], 0) - 2)
    else if Word(s[1], s[2]) > |s| then Zeros(Word(s[1], s[2]) - |s|)
    else []
  }

  lemma Moves(s: seq<byte>)
    requires s != [] && |s| <= CAPACITY && Judge(s) == Wait && !Jammed(s)
    ensures |s + Mover(s)| <= CAPACITY && !Idle(s + Mover(s))
  {
    var s' := s + Mover(s);
    assert s'[0] == s[0] && (|s| >= 2 ==> s'[1] == s[1]) && (|s| >= 3 ==> s'[2] == s[2]);
    DrainShrinks(s');
  }

  lemma StuckLonger(s: seq<byte>, u: seq<byte>)
    requires Stuck(s) && |s + u| <= CAPACITY
    ensures Idle(s + u) && Stuck(s + u)
  {
    forall t | |(s + u) + t| <= CAPACITY
      ensures Idle((s + u) + t)
    {
      Assoc(s, u, t);
      assert Idle(s + (u + t));
    }
  }

  // once stuck, no run of portions that fit dispatches anything again
  lemma {:induction false} StuckForGood(s: seq<byte>, chunks: seq<seq<byte>>)
    requires Stuck(s) && FitsBehind(s, chunks)
    ensures DrainAll(s, chunks) == Drained([], s + Joined(chunks))
    decreases |chunks|
  {
    if chunks == [] {
      assert s + Joined(chunks) == s;
    } else {
      StuckLonger(s, chunks[0]);
      StuckForGood(s + chunks[0], chunks[1..]);
      Assoc(s, chunks[0], Joined(chunks[1..]));
      assert DrainAll(s + chunks[0], chunks[1..]).frames == [];
    }
  }

  lemma ChecksumStep(s: seq<byte>, n: nat, sum: byte)
    requires 1 <= n < |s| && Checksum(s[..n]) == sum
    ensures Checksum(s[..n + 1]) == Xor(sum, s[n])
  {
    assert s[..n + 1][..n] == s[..n];
  }

  // the least frame with this id and checksum
  function BareFrame(lo: byte, sum: byte): seq<byte> {
    [FLAG, 0, 8, 0, lo, 0, sum, FLAG]
  }

  lemma BareChecksum(lo: byte, sum: byte)
    requires Xor(FLAG, 0) == FLAG && Xor(FLAG, 8) == 0xC6 && Xor(0xC6, 0) == 0xC6
    requires Xor(0xC6, lo) == sum && Xor(sum, 0) == sum
    ensures Checksum(BareFrame(lo, sum)[..6]) == sum
  {
    var f := BareFrame(lo, sum);
    assert f[..1] == [FLAG];
    ChecksumStep(f, 1, FLAG);
    ChecksumStep(f, 2, FLAG);
    ChecksumStep(f, 3, 0xC6);
    ChecksumStep(f, 4, 0xC6);
    ChecksumStep(f, 5, sum);
  }

  lemma BareStuck(lo: byte, sum: byte)
    requires Mistakable(lo) && Checksum(BareFrame(lo, sum)[..6]) == sum
    ensures Stuck(BareFrame(lo, sum))
  {
    var f := BareFrame(lo, sum);
    assert f[..8] == f && f + [] == f;
    AcceptIsFrame(f, 8);
    DispatchedUnlessMistakable(f, 8, []);
    StuckWhenJammed(f);
  }

  // one input for each way to be stuck: ids 0 and 255, and a length beyond the capacity, known whole or in part
  lemma StuckInputs()
    ensures Stuck([0xCE, 0, 8, 0, 0, 0, 0xC6, 0xCE]) && Stuck([0xCE, 0, 8, 0, 255, 0, 0x39, 0xCE])
    ensures Stuck([0xCE, 4, 1]) && Stuck([0xCE, 5])
  {
    BareChecksum(0, 0xC6);
    BareStuck(0, 0xC6);
    BareChecksum(255, 0x39);
    BareStuck(255, 0x39);
    WaitingIsIdle([0xCE, 4, 1]);
    StuckWhenJammed([0xCE, 4, 1]);
    WaitingIsIdle([0xCE, 5]);
    StuckWhenJammed([0xCE, 5]);
  }

  // ---- what keeps a lagging stream from moving on

  // nothing that still fits behind s lets a frame be dispatched
  ghost predicate Barren(s: seq<byte>) {
    forall t :: |s + t| <= CAPACITY ==> !Dispatches(s + t)
  }

  // bytes of which the scanner would skip all are barren exactly when no frame fits behind them
  lemma BarrenWhenFull(s: seq<byte>)
    requires Pending(s) == [] && |s| <= CAPACITY
    ensures Barren(s) <==> |s| + MIN_FRAME > CAPACITY
  {
    forall t | |s + t| <= CAPACITY && |s| + MIN_FRAME > CAPACITY
      ensures !Dispatches(s + t)
    {
      BehindSkipped(s, t);
    }
    if |s| + MIN_FRAME <= CAPACITY {
      var f := BareFrame(1, 0xC7);
      BareDispatches();
      BehindSkipped(s, f);
      assert |s + f| <= CAPACITY;
    }
  }

  lemma BehindSkipped(s: seq<byte>, t: seq<byte>)
    requires Pending(s) == []
    ensures Pending(s + t) == Pending(t)
    ensures Dispatches(s + t) ==> |t| >= MIN_FRAME
  {
    PendingResumes(s, t);
    assert [] + t == t;
  }

  lemma BareDispatches()
    ensures Dispatches(BareFrame(1, 0xC7))
  {
    var f := BareFrame(1, 0xC7);
    BareChecksum(1, 0xC7);
    assert f[..8] == f && f[0..] == f;
    AcceptIsFrame(f, 8);
  }

  // what is stuck for a stream that does not lag is barren, too
  lemma StuckIsBarren(s: seq<byte>)
    requires Stuck(s)
    ensures Barren(s)
  {
    forall t | |s + t| <= CAPACITY
      ensures !Dispatches(s + t)
    {
      assert Idle(s + t);
      if Dispatches(s + t) { DrainDispatches(s + t); }
    }
  }

  lemma BarrenLonger(s: seq<byte>, u: seq<byte>)
    requires Barren(s) && |s + u| <= CAPACITY
    ensures !Dispatches(s + u) && Barren(s + u)
  {
    forall t | |(s + u) + t| <= CAPACITY
      ensures !Dispatches((s + u) + t)
    {
      Assoc(s, u, t);
    }
    assert !Dispatches(s + u);
  }

  lemma {:induction false} ZerosSkipped(n: nat)
    ensures FirstStop(Zeros(n)) == n
  {
    if n > 0 {
      assert Zeros(n)[1..] == Zeros(n - 1);
      ZerosSkipped(n - 1);
    }
  }

  // a FIFO full of zeros is barren, though the zeros are not stuck when nothing lags
  lemma FullOfZeros()
    ensures Barren(Zeros(CAPACITY)) && !Dispatches(Zeros(CAPACITY))
    ensures !Jammed(Zeros(CAPACITY)) && !Stuck(Zeros(CAPACITY))
  {
    var s := Zeros(CAPACITY);
    ZerosSkipped(CAPACITY);
    BarrenWhenFull(s);
    assert s + [] == s;
    DrainShrinks(s);
    assert !Idle(s + []);
  }

  // ---- inputs for the two ways to wait in vain

  lemma VainInputs()
    ensures Judge([0xCE, 9]) == Wait && !Unfinished([0xCE, 9])
    ensures Judge([0xCE, 0, 8, 0, 1, 0, 0]) == Wait && !Unfinished([0xCE, 0, 8, 0, 1, 0, 0])
  {
    var s := [0xCE, 0, 8, 0, 1, 0, 0];
    WaitIsUnfinished([0xCE, 9]);
    BareChecksum(1, 0xC7);
    assert s[..6] == BareFrame(1, 0xC7)[..6];
    WaitIsUnfinished(s);
  }
}
