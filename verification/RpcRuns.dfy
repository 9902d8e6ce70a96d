// Any number of threads in rpcSendFrame and in rpcProcess, one semaphore operation or one
// stretch of code between two of them at a time. A received frame starts out assembled.
module RpcRuns {
  import opened Arithmetic
  import opened Bytes
  import opened Options
  import opened Threads

  const TYPE_MASK: byte := 0xE0
  const SUBSYSTEM_MASK: byte := 0x1F
  const SREQ: byte := 0x20
  const SRSP: byte := 0x60
  const NO_SRSP: byte := 0xFF

  lemma LowFive(x: nat)
    ensures BitAnd(x, 0x1F) == x % 32
  {
    assert Pow2(5) == 32;
    MaskIsMod(x, 5);
  }

  lemma HighThree(x: byte)
    ensures BitAnd(x, 0xE0) == x / 32 * 32
  {
    MaskThree(x, x / 32, x % 32, 0xE0);
  }

  lemma MaskThree(x: nat, high: nat, low: nat, mask: nat)
    requires x == high * 32 + low && high < 8 && low < 32 && mask == 224
    ensures BitAnd(x, mask) == high * 32
  {
    Powers();
    ModSmall(high, 8);
    MaskField(x, high, low, 5, 32, 3, 8, mask);
  }

  lemma Powers()
    ensures Pow2(3) == 8 && Pow2(5) == 32
  {
    assert Pow2(3) == 8;
  }

  // the five low bits of a command
  function Subsystem(cmd0: byte): (b: byte)
    ensures b == cmd0 % 32
  {
    LowFive(cmd0);
    BitAnd(cmd0, SUBSYSTEM_MASK)
  }

  // the three high bits are 1 in a request and 3 in a response
  predicate IsSreq(cmd0: byte): (b: bool)
    ensures b <==> cmd0 / 32 == 1
  {
    HighThree(cmd0);
    BitAnd(cmd0, TYPE_MASK) == SREQ
  }

  predicate IsSrsp(cmd0: byte): (b: bool)
    ensures b <==> cmd0 / 32 == 3
  {
    HighThree(cmd0);
    BitAnd(cmd0, TYPE_MASK) == SRSP
  }

  datatype Frame = Frame(cmd0: byte, rest: seq<byte>)

  // a thread in rpcSendFrame
  datatype Sender =
    | Outside
    | Waiting(cmd0: byte)         // about to wait for rpcSem
    | Locked(cmd0: byte)          // has rpcSem
    | Ready(cmd0: byte)           // the expected response is set, if there is one
    | Written(cmd0: byte)         // the request is out
    | Woken(cmd0: byte, ok: bool) // the wait for the response is over
    | Unlocking(cmd0: byte)       // nothing is expected any more

  // a thread in rpcProcess
  datatype Receiver =
    | Reading
    | Got(f: Frame)                 // an assembled frame
    | Matched(f: Frame)             // the expected response, not yet posted
    | Queueing(f: Frame, prio: bool)

  datatype Action = Send(cmd0: byte) | Arrive(f: Frame) | GiveUp | Go

  datatype Actor = Requester(t: nat) | Listener(u: nat)

  datatype State = State(
    senders: seq<Sender>, receivers: seq<Receiver>, rpcSem: nat, srspSem: nat, expected: byte,
    queued: seq<(Frame, bool)>,
    // what happened so far: frames received, responses discarded, responses matched, waits completed,
    // whether a request was ever made
    arrived: seq<Frame>, dropped: seq<Frame>,
    matched: nat, completed: nat, started: bool,
    // of the latest request: what was posted or about to be posted when it opened, and the matches since
    debt: nat, own: nat)

  function Init(senders: nat, receivers: nat): State {
    State(seq(senders, i => Outside), seq(receivers, i => Reading), 1, 0, 0, [], [], [], 0, 0, false, 0, 0)
  }

  // ---- what threads count as

  // between the wait on rpcSem and the post
  function Holds(t: Sender): nat {
    if t.Outside? || t.Waiting? then 0 else 1
  }

  // between setting the expected response and unsetting it
  function Expects(t: Sender): nat {
    if (t.Ready? || t.Written? || t.Woken?) && IsSreq(t.cmd0) then 1 else 0
  }

  function Answered(t: Sender): nat {
    if t.Woken? && t.ok then 1 else 0
  }

  // matched, but srspSem not yet posted
  function Unposted(r: Receiver): nat {
    if r.Matched? then 1 else 0
  }

  // matched, but not yet in the queue
  function Unqueued(r: Receiver): nat {
    if r.Matched? || (r.Queueing? && r.prio) then 1 else 0
  }

  function Srsps(queued: seq<(Frame, bool)>): nat {
    if queued == [] then 0 else (if queued[|queued| - 1].0.cmd0 / 32 == 3 then 1 else 0) + Srsps(queued[..|queued| - 1])
  }

  // ---- one step

  function SenderStep(s: State, t: nat, a: Action): Option<State>
    requires t < |s.senders|
  {
    match s.senders[t]
    case Outside =>
      if a.Send? then Some(s.(senders := s.senders[t := Waiting(a.cmd0)])) else None
    case Waiting(cmd0) =>
      if s.rpcSem > 0 && a.Go? then Some(s.(senders := s.senders[t := Locked(cmd0)], rpcSem := s.rpcSem - 1)) else None
    case Locked(cmd0) =>
      if !a.Go? then None
      else if !IsSreq(cmd0) then Some(s.(senders := s.senders[t := Ready(cmd0)]))
      else
        Some(s.(senders := s.senders[t := Ready(cmd0)], expected := Subsystem(cmd0), started := true,
                debt := s.srspSem + Total(s.receivers, Unposted), own := 0))
    case Ready(cmd0) =>
      if a.Go? then Some(s.(senders := s.senders[t := Written(cmd0)])) else None
    case Written(cmd0) =>
      if !IsSreq(cmd0) then
        if a.Go? then Some(s.(senders := s.senders[t := Unlocking(cmd0)])) else None
      else if a.GiveUp? then Some(s.(senders := s.senders[t := Woken(cmd0, false)]))
      else if s.srspSem > 0 && a.Go? then
        Some(s.(senders := s.senders[t := Woken(cmd0, true)], srspSem := s.srspSem - 1, completed := s.completed + 1))
      else None
    case Woken(cmd0, ok) =>
      if a.Go? then Some(s.(senders := s.senders[t := Unlocking(cmd0)], expected := NO_SRSP)) else None
    case Unlocking(cmd0) =>
      if a.Go? then Some(s.(senders := s.senders[t := Outside], rpcSem := s.rpcSem + 1)) else None
  }

  function ReceiverStep(s: State, u: nat, a: Action): Option<State>
    requires u < |s.receivers|
  {
    match s.receivers[u]
    case Reading =>
      if a.Arrive? then Some(s.(receivers := s.receivers[u := Got(a.f)], arrived := s.arrived + [a.f])) else None
    case Got(f) =>
      if !a.Go? then None
      else if !IsSrsp(f.cmd0) then Some(s.(receivers := s.receivers[u := Queueing(f, false)]))
      else if s.expected == Subsystem(f.cmd0) then
        Some(s.(receivers := s.receivers[u := Matched(f)], matched := s.matched + 1, own := s.own + 1))
      else Some(s.(receivers := s.receivers[u := Reading], dropped := s.dropped + [f]))
    case Matched(f) =>
      if a.Go? then Some(s.(receivers := s.receivers[u := Queueing(f, true)], srspSem := s.srspSem + 1)) else None
    case Queueing(f, prio) =>
      if a.Go? then Some(s.(receivers := s.receivers[u := Reading], queued := s.queued + [(f, prio)])) else None
  }

  function Step(s: State, actor: Actor, a: Action): Option<State> {
    match actor
    case Requester(t) => if t < |s.senders| then SenderStep(s, t, a) else None
    case Listener(u) => if u < |s.receivers| then ReceiverStep(s, u, a) else None
  }

  function Run(s: State, run: seq<(Actor, Action)>): Option<State>
    decreases |run|
  {
    if run == [] then Some(s)
    else
      match Step(s, run[0].0, run[0].1)
      case None => None
      case Some(next) => Run(next, run[1..])
  }

  // ---- the invariant of every run

  // one thread at most between the wait on rpcSem and the post
  ghost predicate Exclusive(s: State) {
    s.rpcSem + Total(s.senders, Holds) == 1
  }

  // every match is a wait completed, a post not yet waited for or a post to come
  ghost predicate Tokens(s: State) {
    s.completed + s.srspSem + Total(s.receivers, Unposted) == s.matched
  }

  ghost predicate WellSorted(r: Receiver) {
    match r
    case Matched(f) => IsSrsp(f.cmd0)
    case Queueing(f, prio) => prio <==> IsSrsp(f.cmd0)
    case _ => true
  }

  // the responses in the queue are those that were matched, and they alone went to its head
  ghost predicate Routed(s: State) {
    && Srsps(s.queued) + Total(s.receivers, Unqueued) == s.matched
    && (forall i :: 0 <= i < |s.queued| ==> (s.queued[i].1 <==> IsSrsp(s.queued[i].0.cmd0)))
    && forall u :: 0 <= u < |s.receivers| ==> WellSorted(s.receivers[u])
  }

  // what a request under way expects and what it has been answered
  ghost predicate Window(s: State, x: Sender) {
    && (x.Woken? ==> IsSreq(x.cmd0))
    && (Expects(x) == 1 ==>
      s.started && s.expected == Subsystem(x.cmd0)
      && s.own + s.debt == s.srspSem + Total(s.receivers, Unposted) + Answered(x))
  }

  ghost predicate Windows(s: State) {
    && (Total(s.senders, Expects) == 0 ==> s.expected == if s.started then NO_SRSP else 0)
    && forall t :: 0 <= t < |s.senders| ==> Window(s, s.senders[t])
  }

  ghost predicate Inv(s: State) {
    Exclusive(s) && Tokens(s) && Routed(s) && Windows(s)
  }

  lemma InitInv(senders: nat, receivers: nat)
    ensures Inv(Init(senders, receivers))
  {
    var s := Init(senders, receivers);
    TotalZero(s.senders, Holds);
    TotalZero(s.senders, Expects);
    TotalZero(s.receivers, Unposted);
    TotalZero(s.receivers, Unqueued);
  }

  lemma Alone(s: State, t: nat, u: nat)
    requires Exclusive(s) && t < |s.senders| && u < |s.senders| && t != u && Holds(s.senders[t]) == 1
    ensures Holds(s.senders[u]) == 0
  {
    if t < u {
      TotalOfTwo(s.senders, t, u, Holds);
    } else {
      TotalOfTwo(s.senders, u, t, Holds);
    }
  }

  lemma SenderKeepsExclusive(s: State, t: nat, a: Action)
    requires Exclusive(s) && t < |s.senders| && SenderStep(s, t, a).Some?
    ensures Exclusive(SenderStep(s, t, a).value)
  {
    var next := SenderStep(s, t, a).value;
    var x := next.senders[t];
    assert next.senders == s.senders[t := x];
    TotalUpdate(s.senders, t, x, Holds);
  }

  lemma SenderKeepsRest(s: State, t: nat, a: Action)
    requires Tokens(s) && Routed(s) && t < |s.senders| && SenderStep(s, t, a).Some?
    ensures Tokens(SenderStep(s, t, a).value) && Routed(SenderStep(s, t, a).value)
  {
    SenderMoves(s, t, a);
  }

  lemma SenderMoves(s: State, t: nat, a: Action)
    requires t < |s.senders| && SenderStep(s, t, a).Some?
    ensures var next := SenderStep(s, t, a).value;
      && next.receivers == s.receivers && next.queued == s.queued && next.matched == s.matched
      && next.arrived == s.arrived && next.dropped == s.dropped
      && next.completed + next.srspSem == s.completed + s.srspSem
  {
  }

  lemma OwnWindow(s: State, t: nat, a: Action)
    requires t < |s.senders| && Window(s, s.senders[t]) && SenderStep(s, t, a).Some?
    ensures Window(SenderStep(s, t, a).value, SenderStep(s, t, a).value.senders[t])
  {
  }

  lemma OtherWindow(s: State, t: nat, a: Action, u: nat)
    requires Exclusive(s) && t < |s.senders| && SenderStep(s, t, a).Some?
    requires u < |s.senders| && u != t && Window(s, s.senders[u])
    ensures SenderStep(s, t, a).value.senders[u] == s.senders[u]
    ensures Window(SenderStep(s, t, a).value, s.senders[u])
  {
    if Holds(s.senders[t]) == 1 {
      Alone(s, t, u);
    }
  }

  lemma SenderKeepsIdle(s: State, t: nat, a: Action)
    requires Exclusive(s) && Windows(s) && t < |s.senders| && SenderStep(s, t, a).Some?
    ensures var next := SenderStep(s, t, a).value;
      Total(next.senders, Expects) == 0 ==> next.expected == if next.started then NO_SRSP else 0
  {
    var next := SenderStep(s, t, a).value;
    var x := next.senders[t];
    assert next.senders == s.senders[t := x];
    TotalUpdate(s.senders, t, x, Expects);
    assert Window(s, s.senders[t]);
    if Holds(s.senders[t]) == 1 {
      OnlyOneExpects(s, t);
    }
  }

  lemma SenderKeepsWindows(s: State, t: nat, a: Action)
    requires Exclusive(s) && Windows(s) && t < |s.senders| && SenderStep(s, t, a).Some?
    ensures Windows(SenderStep(s, t, a).value)
  {
    var next := SenderStep(s, t, a).value;
    SenderKeepsIdle(s, t, a);
    forall u | 0 <= u < |next.senders| ensures Window(next, next.senders[u]) {
      assert Window(s, s.senders[u]);
      if u == t {
        OwnWindow(s, t, a);
      } else {
        OtherWindow(s, t, a, u);
      }
    }
  }

  // apart from the holder of rpcSem nobody expects a response
  lemma OnlyOneExpects(s: State, t: nat)
    requires Exclusive(s) && t < |s.senders| && Holds(s.senders[t]) == 1
    ensures Total(s.senders, Expects) == Expects(s.senders[t])
  {
    var rest := s.senders[t := Outside];
    forall u | 0 <= u < |rest| ensures Expects(rest[u]) == 0 {
      if u != t {
        Alone(s, t, u);
      }
    }
    TotalZero(rest, Expects);
    TotalUpdate(s.senders, t, Outside, Expects);
  }

  lemma ReceiverMoved(s: State, u: nat, x: Receiver)
    requires u < |s.receivers|
    ensures Total(s.receivers[u := x], Unposted) + Unposted(s.receivers[u])
         == Total(s.receivers, Unposted) + Unposted(x)
    ensures Total(s.receivers[u := x], Unqueued) + Unqueued(s.receivers[u])
         == Total(s.receivers, Unqueued) + Unqueued(x)
  {
    TotalUpdate(s.receivers, u, x, Unposted);
    TotalUpdate(s.receivers, u, x, Unqueued);
  }

  // a receiver goes on to x without queueing anything
  lemma MoveKeepsCounts(s: State, u: nat, x: Receiver, next: State)
    requires Tokens(s) && Routed(s) && u < |s.receivers| && WellSorted(x)
    requires next.receivers == s.receivers[u := x] && next.queued == s.queued && next.completed == s.completed
    requires next.matched - s.matched == Unqueued(x) - Unqueued(s.receivers[u])
    requires next.srspSem - s.srspSem + Unposted(x) - Unposted(s.receivers[u]) == next.matched - s.matched
    ensures Tokens(next) && Routed(next)
  {
    ReceiverMoved(s, u, x);
  }

  // a receiver queues its frame and is done with it
  lemma QueueKeepsCounts(s: State, u: nat, next: State)
    requires Tokens(s) && Routed(s) && u < |s.receivers| && s.receivers[u].Queueing?
    requires next == s.(receivers := s.receivers[u := Reading],
                        queued := s.queued + [(s.receivers[u].f, s.receivers[u].prio)])
    ensures Tokens(next) && Routed(next)
  {
    ReceiverMoved(s, u, Reading);
    assert WellSorted(s.receivers[u]);
    assert next.queued[..|next.queued| - 1] == s.queued;
  }

  lemma ReceiverKeepsCounts(s: State, u: nat, a: Action)
    requires Tokens(s) && Routed(s) && u < |s.receivers| && ReceiverStep(s, u, a).Some?
    ensures Tokens(ReceiverStep(s, u, a).value) && Routed(ReceiverStep(s, u, a).value)
  {
    var next := ReceiverStep(s, u, a).value;
    if s.receivers[u].Queueing? {
      QueueKeepsCounts(s, u, next);
    } else {
      assert WellSorted(s.receivers[u]);
      MoveKeepsCounts(s, u, next.receivers[u], next);
    }
  }

  lemma ReceiverKeepsWindows(s: State, u: nat, a: Action)
    requires Windows(s) && u < |s.receivers| && ReceiverStep(s, u, a).Some?
    ensures Windows(ReceiverStep(s, u, a).value)
  {
    var next := ReceiverStep(s, u, a).value;
    assert next.receivers == s.receivers[u := next.receivers[u]];
    ReceiverMoved(s, u, next.receivers[u]);
    forall t | 0 <= t < |next.senders| ensures Window(next, next.senders[t]) {
      assert Window(s, s.senders[t]);
    }
  }

  lemma StepInv(s: State, actor: Actor, a: Action)
    requires Inv(s) && Step(s, actor, a).Some?
    ensures Inv(Step(s, actor, a).value)
  {
    match actor
    case Requester(t) =>
      SenderKeepsExclusive(s, t, a);
      SenderKeepsRest(s, t, a);
      SenderKeepsWindows(s, t, a);
    case Listener(u) =>
      ReceiverKeepsCounts(s, u, a);
      ReceiverKeepsWindows(s, u, a);
  }

  // whatever the threads and the wire do, in whatever order
  lemma {:induction false} RunInv(s: State, run: seq<(Actor, Action)>)
    requires Inv(s) && Run(s, run).Some?
    ensures Inv(Run(s, run).value)
    decreases |run|
  {
    if run != [] {
      StepInv(s, run[0].0, run[0].1);
      RunInv(Step(s, run[0].0, run[0].1).value, run[1..]);
    }
  }

  ghost predicate Reachable(s: State, senders: nat, receivers: nat) {
    exists run :: Run(Init(senders, receivers), run) == Some(s)
  }

  lemma ReachableInv(s: State, senders: nat, receivers: nat)
    requires Reachable(s, senders, receivers)
    ensures Inv(s)
  {
    var run :| Run(Init(senders, receivers), run) == Some(s);
    InitInv(senders, receivers);
    RunInv(Init(senders, receivers), run);
  }

  // at most one thread is between the wait on rpcSem and the post
  lemma OneRequestAtATime(s: State, senders: nat, receivers: nat, t: nat, u: nat)
    requires Reachable(s, senders, receivers) && t < u < |s.senders|
    ensures Holds(s.senders[t]) + Holds(s.senders[u]) <= 1
  {
    ReachableInv(s, senders, receivers);
    TotalOfTwo(s.senders, t, u, Holds);
  }

  // a thread that waits for rpcSem is waiting for one that can go on, if need be by giving up its own wait
  lemma LockComesBack(s: State, senders: nat, receivers: nat) returns (t: nat, a: Action)
    requires Reachable(s, senders, receivers) && s.rpcSem == 0
    ensures t < |s.senders| && Holds(s.senders[t]) == 1 && SenderStep(s, t, a).Some?
  {
    ReachableInv(s, senders, receivers);
    t := TotalPositive(s.senders, Holds);
    a := if s.senders[t].Written? && IsSreq(s.senders[t].cmd0) then GiveUp else Go;
  }

  // a response is matched for the request under way and its subsystem, or before the first request
  lemma MatchIsExpected(s: State, senders: nat, receivers: nat, u: nat) returns (t: nat)
    requires Reachable(s, senders, receivers) && u < |s.receivers|
    requires ReceiverStep(s, u, Go).Some? && ReceiverStep(s, u, Go).value.matched > s.matched
    ensures var sub := Subsystem(s.receivers[u].f.cmd0);
      || (t < |s.senders| && Expects(s.senders[t]) == 1 && Subsystem(s.senders[t].cmd0) == sub)
      || (!s.started && sub == 0)
  {
    ReachableInv(s, senders, receivers);
    t := 0;
    if Total(s.senders, Expects) > 0 {
      t := TotalPositive(s.senders, Expects);
      assert Window(s, s.senders[t]);
    }
  }

  // a request that opens without debt is only completed by a response matched since
  lemma OwnResponse(s: State, senders: nat, receivers: nat, t: nat)
    requires Reachable(s, senders, receivers) && t < |s.senders| && s.senders[t].Woken? && s.senders[t].ok
    ensures s.own + s.debt > 0 && (s.debt == 0 ==> s.own > 0)
  {
    ReachableInv(s, senders, receivers);
    assert Window(s, s.senders[t]);
  }

  lemma RunStep(s: State, actor: Actor, a: Action, rest: seq<(Actor, Action)>)
    requires Step(s, actor, a).Some?
    ensures Run(s, [(actor, a)] + rest) == Run(Step(s, actor, a).value, rest)
  {
    assert ([(actor, a)] + rest)[1..] == rest;
  }

  // one that opens with debt can complete though nothing has answered it
  lemma StaleResponse(s: State, t: nat) returns (run: seq<(Actor, Action)>, end: State)
    requires t < |s.senders| && s.senders[t].Locked? && IsSreq(s.senders[t].cmd0)
    requires s.srspSem + Total(s.receivers, Unposted) > 0
    ensures Run(s, run) == Some(end) && t < |end.senders| && end.senders[t] == Woken(s.senders[t].cmd0, true)
    ensures end.own == 0
  {
    var me := Requester(t);
    var s1 := Step(s, me, Go).value;
    var s2 := Step(s1, me, Go).value;
    if s2.srspSem > 0 {
      end := Step(s2, me, Go).value;
      run := [(me, Go)] + [];
      RunStep(s2, me, Go, []);
    } else {
      var u := TotalPositive(s.receivers, Unposted);
      var s3 := Step(s2, Listener(u), Go).value;
      end := Step(s3, me, Go).value;
      RunStep(s3, me, Go, []);
      run := [(Listener(u), Go)] + ([(me, Go)] + []);
      RunStep(s2, Listener(u), Go, [(me, Go)] + []);
    }
    RunStep(s1, me, Go, run);
    RunStep(s, me, Go, [(me, Go)] + run);
    run := [(me, Go)] + ([(me, Go)] + run);
  }

  lemma {:induction false} RunAppend(s: State, run: seq<(Actor, Action)>, actor: Actor, a: Action)
    requires Run(s, run).Some?
    ensures Run(s, run + [(actor, a)]) == Step(Run(s, run).value, actor, a)
    decreases |run|
  {
    if run == [] {
      assert run + [(actor, a)] == [(actor, a)] + [];
      if Step(s, actor, a).Some? {
        RunStep(s, actor, a, []);
      }
    } else {
      RunAppend(Step(s, run[0].0, run[0].1).value, run[1..], actor, a);
      assert (run + [(actor, a)])[1..] == run[1..] + [(actor, a)];
    }
  }

  lemma ReachableStep(s: State, senders: nat, receivers: nat, actor: Actor, a: Action) returns (next: State)
    requires Reachable(s, senders, receivers) && Step(s, actor, a).Some?
    ensures next == Step(s, actor, a).value && Reachable(next, senders, receivers)
  {
    next := Step(s, actor, a).value;
    var run :| Run(Init(senders, receivers), run) == Some(s);
    RunAppend(Init(senders, receivers), run, actor, a);
    assert Run(Init(senders, receivers), run + [(actor, a)]) == Some(next);
  }

  lemma TimesOut(first: byte) returns (s: State)
    requires IsSreq(first)
    ensures Reachable(s, 1, 1) && s.senders == [Woken(first, false)] && s.receivers == [Reading]
    ensures s.expected == Subsystem(first) && s.srspSem == 0 && s.rpcSem == 0
  {
    var me := Requester(0);
    s := Init(1, 1);
    assert Run(s, []) == Some(s);
    s := ReachableStep(s, 1, 1, me, Send(first));
    s := ReachableStep(s, 1, 1, me, Go);
    s := ReachableStep(s, 1, 1, me, Go);
    s := ReachableStep(s, 1, 1, me, Go);
    s := ReachableStep(s, 1, 1, me, GiveUp);
  }

  lemma ComesLate(first: byte, response: byte) returns (s: State)
    requires IsSreq(first) && IsSrsp(response) && Subsystem(response) == Subsystem(first)
    ensures Reachable(s, 1, 1) && s.senders == [Woken(first, false)] && s.srspSem == 1 && s.rpcSem == 0
  {
    var wire := Listener(0);
    s := TimesOut(first);
    s := ReachableStep(s, 1, 1, wire, Arrive(Frame(response, [])));
    s := ReachableStep(s, 1, 1, wire, Go);
    s := ReachableStep(s, 1, 1, wire, Go);
  }

  // such a debt does come about: a response that arrives between a timeout and the unsetting
  // of what is expected is left for the next request, whatever its subsystem
  lemma DebtHappens(first: byte, response: byte, second: byte) returns (s: State)
    requires IsSreq(first) && IsSrsp(response) && IsSreq(second) && Subsystem(response) == Subsystem(first)
    ensures Reachable(s, 1, 1) && s.senders == [Locked(second)] && s.srspSem == 1
  {
    var me := Requester(0);
    s := ComesLate(first, response);
    s := ReachableStep(s, 1, 1, me, Go);
    s := ReachableStep(s, 1, 1, me, Go);
    s := ReachableStep(s, 1, 1, me, Send(second));
    s := ReachableStep(s, 1, 1, me, Go);
  }

  // at every step a response matched has completed a wait, can complete one or is yet to be posted, and it is
  // queued or yet to be queued; with every frame dealt with nothing is left to be posted or queued
  lemma ResponsesConserved(s: State, senders: nat, receivers: nat)
    requires Reachable(s, senders, receivers)
    ensures s.completed + s.srspSem + Total(s.receivers, Unposted) == s.matched
    ensures Srsps(s.queued) + Total(s.receivers, Unqueued) == s.matched
    ensures forall i :: 0 <= i < |s.queued| ==> (s.queued[i].1 <==> s.queued[i].0.cmd0 / 32 == 3)
    ensures (forall u :: 0 <= u < |s.receivers| ==> s.receivers[u].Reading?) ==>
      Srsps(s.queued) == s.matched == s.completed + s.srspSem
  {
    ReachableInv(s, senders, receivers);
    if forall u :: 0 <= u < |s.receivers| ==> s.receivers[u].Reading? {
      TotalZero(s.receivers, Unposted);
      TotalZero(s.receivers, Unqueued);
    }
  }

  // ---- what becomes of each frame received

  // a thread has this frame in its hands
  function Holding(f: Frame): Receiver -> nat {
    (r: Receiver) => if !r.Reading? && r.f == f then 1 else 0
  }

  // as often as it was received it is queued, responses at the head and others at the tail, or was discarded,
  // or is in the hands of a thread
  ghost predicate Accounted(s: State, f: Frame) {
    multiset(s.arrived)[f]
    == multiset(s.queued)[(f, f.cmd0 / 32 == 3)] + multiset(s.dropped)[f] + Total(s.receivers, Holding(f))
  }

  // the frames that are no responses, and those added to the tail, in their order
  ghost function Others(fs: seq<Frame>): seq<Frame> {
    if fs == [] then []
    else
      var n := |fs| - 1;
      Others(fs[..n]) + if fs[n].cmd0 / 32 != 3 then [fs[n]] else []
  }

  ghost function ToTail(queued: seq<(Frame, bool)>): seq<Frame> {
    if queued == [] then []
    else
      var n := |queued| - 1;
      ToTail(queued[..n]) + if queued[n].1 then [] else [queued[n].0]
  }

  // a frame that is no response, in the hands of a thread
  ghost function OnItsWay(r: Receiver): seq<Frame> {
    if (r.Got? && r.f.cmd0 / 32 != 3) || (r.Queueing? && !r.prio) then [r.f] else []
  }

  // a single thread queues them in the order they come in
  ghost predicate InTurn(s: State) {
    |s.receivers| == 1 ==> Others(s.arrived) == ToTail(s.queued) + OnItsWay(s.receivers[0])
  }

  ghost predicate Delivering(s: State, f: Frame) {
    Accounted(s, f) && (f in s.dropped ==> f.cmd0 / 32 == 3) && InTurn(s)
  }

  lemma InitDelivering(senders: nat, receivers: nat, f: Frame)
    ensures Delivering(Init(senders, receivers), f)
  {
    TotalZero(Init(senders, receivers).receivers, Holding(f));
  }

  // a step of a receiver, as far as frames go: one is taken in, given up or queued, or only the thread moves on
  lemma ReceiverMoves(s: State, u: nat, a: Action)
    requires u < |s.receivers| && WellSorted(s.receivers[u]) && ReceiverStep(s, u, a).Some?
    ensures var r, next := s.receivers[u], ReceiverStep(s, u, a).value; var x := next.receivers[u];
      && next.receivers == s.receivers[u := x]
      && next.arrived == (if r.Reading? then s.arrived + [x.f] else s.arrived)
      && next.dropped == (if r.Got? && x.Reading? then s.dropped + [r.f] else s.dropped)
      && next.queued == (if r.Queueing? then s.queued + [(r.f, r.prio)] else s.queued)
      && if r.Reading? then x.Got? else if r.Queueing? then x.Reading? else x.Reading? || x.f == r.f
    ensures var r, x := s.receivers[u], ReceiverStep(s, u, a).value.receivers[u];
      r.Matched? ==> x == Queueing(r.f, true)
    ensures var r, x := s.receivers[u], ReceiverStep(s, u, a).value.receivers[u];
      r.Got? ==> if r.f.cmd0 / 32 == 3 then x == Reading || x == Matched(r.f) else x == Queueing(r.f, false)
  {
  }

  lemma StepAccounts(s: State, u: nat, a: Action, f: Frame)
    requires Accounted(s, f) && u < |s.receivers| && WellSorted(s.receivers[u]) && ReceiverStep(s, u, a).Some?
    ensures Accounted(ReceiverStep(s, u, a).value, f)
  {
    ReceiverMoves(s, u, a);
    TotalUpdate(s.receivers, u, ReceiverStep(s, u, a).value.receivers[u], Holding(f));
  }

  lemma OthersAppend(fs: seq<Frame>, f: Frame)
    ensures Others(fs + [f]) == Others(fs) + if f.cmd0 / 32 != 3 then [f] else []
  {
    assert (fs + [f])[..|fs|] == fs;
  }

  lemma ToTailAppend(queued: seq<(Frame, bool)>, e: (Frame, bool))
    ensures ToTail(queued + [e]) == ToTail(queued) + if e.1 then [] else [e.0]
  {
    assert (queued + [e])[..|queued|] == queued;
  }

  lemma StepInTurn(s: State, a: Action)
    requires |s.receivers| == 1 && InTurn(s) && WellSorted(s.receivers[0]) && ReceiverStep(s, 0, a).Some?
    ensures InTurn(ReceiverStep(s, 0, a).value)
  {
    var r, next := s.receivers[0], ReceiverStep(s, 0, a).value;
    ReceiverMoves(s, 0, a);
    if r.Reading? {
      OthersAppend(s.arrived, next.receivers[0].f);
      assert OnItsWay(r) == [] && ToTail(s.queued) + [] == ToTail(s.queued);
    } else if r.Queueing? {
      ToTailAppend(s.queued, (r.f, r.prio));
      assert OnItsWay(next.receivers[0]) == [] && ToTail(next.queued) + [] == ToTail(next.queued);
      assert ToTail(s.queued) + [] == ToTail(s.queued);
    } else {
      assert OnItsWay(next.receivers[0]) == OnItsWay(r);
    }
  }

  lemma StepDelivers(s: State, actor: Actor, a: Action, f: Frame)
    requires Routed(s) && Delivering(s, f) && Step(s, actor, a).Some?
    ensures Delivering(Step(s, actor, a).value, f)
  {
    match actor
    case Requester(t) => SenderMoves(s, t, a);
    case Listener(u) =>
      assert WellSorted(s.receivers[u]);
      ReceiverMoves(s, u, a);
      StepAccounts(s, u, a, f);
      if |s.receivers| == 1 { StepInTurn(s, a); }
  }

  lemma {:induction false} RunDelivers(s: State, run: seq<(Actor, Action)>, f: Frame)
    requires Inv(s) && Delivering(s, f) && Run(s, run).Some?
    ensures Delivering(Run(s, run).value, f)
    decreases |run|
  {
    if run != [] {
      StepInv(s, run[0].0, run[0].1);
      StepDelivers(s, run[0].0, run[0].1, f);
      RunDelivers(Step(s, run[0].0, run[0].1).value, run[1..], f);
    }
  }

  // in every reachable state each frame received is queued in its place, discarded or in hand, as often as it came;
  // only responses are discarded, so with every frame dealt with all others are queued
  lemma FramesConserved(s: State, senders: nat, receivers: nat, f: Frame)
    requires Reachable(s, senders, receivers)
    ensures multiset(s.arrived)[f]
         == multiset(s.queued)[(f, f.cmd0 / 32 == 3)] + multiset(s.dropped)[f] + Total(s.receivers, Holding(f))
    ensures f.cmd0 / 32 != 3 ==> f !in s.dropped && (f, true) !in s.queued
    ensures f.cmd0 / 32 == 3 ==> (f, false) !in s.queued
    ensures f.cmd0 / 32 != 3 && (forall u :: 0 <= u < |s.receivers| ==> s.receivers[u].Reading?) ==>
      multiset(s.queued)[(f, false)] == multiset(s.arrived)[f]
  {
    var run :| Run(Init(senders, receivers), run) == Some(s);
    InitInv(senders, receivers);
    InitDelivering(senders, receivers, f);
    RunDelivers(Init(senders, receivers), run, f);
    ReachableInv(s, senders, receivers);
    if forall u :: 0 <= u < |s.receivers| ==> s.receivers[u].Reading? {
      TotalZero(s.receivers, Holding(f));
    }
  }

  // a single thread queues the frames that are no responses in the order they came in
  lemma QueuedInTurn(s: State, senders: nat)
    requires Reachable(s, senders, 1)
    ensures |s.receivers| == 1 && Others(s.arrived) == ToTail(s.queued) + OnItsWay(s.receivers[0])
  {
    var run :| Run(Init(senders, 1), run) == Some(s);
    InitInv(senders, 1);
    InitDelivering(senders, 1, Frame(0, []));
    RunDelivers(Init(senders, 1), run, Frame(0, []));
    RunSize(Init(senders, 1), run);
  }

  lemma {:induction false} RunSize(s: State, run: seq<(Actor, Action)>)
    requires Run(s, run).Some?
    ensures |Run(s, run).value.receivers| == |s.receivers|
    decreases |run|
  {
    if run != [] { RunSize(Step(s, run[0].0, run[0].1).value, run[1..]); }
  }

  // ---- a request that is answered in time

  // from any state in which rpcSem is free, a request can be sent, its response received, posted and queued first, and
  // the request completed, with everything else as before
  lemma RequestCompletes(s: State, t: nat, u: nat, cmd0: byte, f: Frame) returns (run: seq<(Actor, Action)>)
    requires t < |s.senders| && s.senders[t] == Outside && u < |s.receivers| && s.receivers[u] == Reading
    requires s.rpcSem > 0 && cmd0 / 32 == 1 && f.cmd0 / 32 == 3 && f.cmd0 % 32 == cmd0 % 32
    ensures Run(s, run).Some?
    ensures var end := Run(s, run).value;
      && end.senders == s.senders && end.receivers == s.receivers && end.rpcSem == s.rpcSem && end.srspSem == s.srspSem
      && end.queued == s.queued + [(f, true)] && end.completed == s.completed + 1 && end.matched == s.matched + 1
      && end.arrived == s.arrived + [f] && end.dropped == s.dropped && end.expected == 255
  {
    var me, wire := Requester(t), Listener(u);
    var s1, asked := RequestOut(s, t, cmd0);
    var s2, answered := ResponseIn(s1, u, f);
    var s3, ended := RequestEnds(s2, t, cmd0);
    RunJoins(s1, answered, ended);
    RunJoins(s, asked, answered + ended);
    run := asked + (answered + ended);
    assert s.senders[t := Outside] == s.senders && s.receivers[u := Reading] == s.receivers;
  }

  lemma RequestOut(s: State, t: nat, cmd0: byte) returns (end: State, run: seq<(Actor, Action)>)
    requires t < |s.senders| && s.senders[t] == Outside && s.rpcSem > 0 && cmd0 / 32 == 1
    ensures Run(s, run) == Some(end)
    ensures end
         == s.(senders := s.senders[t := Written(cmd0)], rpcSem := s.rpcSem - 1, expected := cmd0 % 32, started := true,
               debt := s.srspSem + Total(s.receivers, Unposted), own := 0)
  {
    var me := Requester(t);
    var s1 := Step(s, me, Send(cmd0)).value;
    var s2 := Step(s1, me, Go).value;
    var s3 := Step(s2, me, Go).value;
    end := Step(s3, me, Go).value;
    RunStep(s3, me, Go, []);
    RunStep(s2, me, Go, [(me, Go)] + []);
    RunStep(s1, me, Go, [(me, Go)] + ([(me, Go)] + []));
    run := [(me, Send(cmd0))] + ([(me, Go)] + ([(me, Go)] + ([(me, Go)] + [])));
    RunStep(s, me, Send(cmd0), run[1..]);
  }

  lemma ResponseIn(s: State, u: nat, f: Frame) returns (end: State, run: seq<(Actor, Action)>)
    requires u < |s.receivers| && s.receivers[u] == Reading && f.cmd0 / 32 == 3 && f.cmd0 % 32 == s.expected
    ensures Run(s, run) == Some(end)
    ensures end
         == s.(receivers := s.receivers[u := Reading], arrived := s.arrived + [f], queued := s.queued + [(f, true)],
               srspSem := s.srspSem + 1, matched := s.matched + 1, own := s.own + 1)
  {
    var wire := Listener(u);
    var s1 := Step(s, wire, Arrive(f)).value;
    var s2 := Step(s1, wire, Go).value;
    var s3 := Step(s2, wire, Go).value;
    end := Step(s3, wire, Go).value;
    RunStep(s3, wire, Go, []);
    RunStep(s2, wire, Go, [(wire, Go)] + []);
    RunStep(s1, wire, Go, [(wire, Go)] + ([(wire, Go)] + []));
    run := [(wire, Arrive(f))] + ([(wire, Go)] + ([(wire, Go)] + ([(wire, Go)] + [])));
    RunStep(s, wire, Arrive(f), run[1..]);
  }

  lemma RequestEnds(s: State, t: nat, cmd0: byte) returns (end: State, run: seq<(Actor, Action)>)
    requires t < |s.senders| && s.senders[t] == Written(cmd0) && cmd0 / 32 == 1 && s.srspSem > 0
    ensures Run(s, run) == Some(end)
    ensures end
         == s.(senders := s.senders[t := Outside], srspSem := s.srspSem - 1, completed := s.completed + 1,
               expected := 255, rpcSem := s.rpcSem + 1)
  {
    var me := Requester(t);
    var s1 := Step(s, me, Go).value;
    var s2 := Step(s1, me, Go).value;
    end := Step(s2, me, Go).value;
    RunStep(s2, me, Go, []);
    RunStep(s1, me, Go, [(me, Go)] + []);
    run := [(me, Go)] + ([(me, Go)] + ([(me, Go)] + []));
    RunStep(s, me, Go, run[1..]);
  }

  lemma {:induction false} RunJoins(s: State, a: seq<(Actor, Action)>, b: seq<(Actor, Action)>)
    requires Run(s, a).Some?
    ensures Run(s, a + b) == Run(Run(s, a).value, b)
    decreases |a|
  {
    if a == [] {
      assert a + b == b;
    } else {
      assert (a + b)[0] == a[0] && (a + b)[1..] == a[1..] + b;
      RunJoins(Step(s, a[0].0, a[0].1).value, a[1..], b);
    }
  }
}
