// Any number of threads calling llq_add and llq_timedreceive on one queue, one semaphore
// operation or one stretch of code between two of them at a time.
module QueueRuns {
  import opened Bytes
  import opened Options
  import opened Queue
  import opened Sequences
  import opened Threads

  datatype Entry = Entry(data: seq<byte>, prio: bool)

  datatype Pc =
    | Idle
    | Adding(e: Entry)     // about to wait for access, to add
    | Linking(e: Entry)    // has access
    | Releasing(e: Entry)  // linked, has access
    | Posting(e: Entry)    // linked, access given back
    | Receiving            // about to wait for the count
    | Counted              // past the count wait
    | Checked              // saw a head
    | Dequeuing            // has access
    | Leaving(e: Entry)    // dequeued, has access

  datatype Action = Add(e: Entry) | Receive | Timeout | Go

  datatype State = State(
    pcs: seq<Pc>, access: nat, count: nat, list: seq<Entry>,
    // what happened so far: the entries in the order they were linked and in the order they were
    // taken, and whether a receiver ever met an empty queue
    linked: seq<Entry>, taken: seq<Entry>, starved: bool)

  function Init(threads: nat): State {
    State(seq(threads, i => Idle), 1, 0, [], [], [], false)
  }

  // thread t goes on by one step, if it can
  function Step(s: State, t: nat, a: Action): Option<State> {
    if t >= |s.pcs| then None
    else
      match s.pcs[t]
      case Idle =>
        if a.Add? then Some(s.(pcs := s.pcs[t := Adding(a.e)]))
        else if a.Receive? then Some(s.(pcs := s.pcs[t := Receiving]))
        else None
      case Adding(e) =>
        if s.access > 0 && a.Go? then Some(s.(pcs := s.pcs[t := Linking(e)], access := s.access - 1)) else None
      case Linking(e) =>
        if !a.Go? then None
        else Some(s.(pcs := s.pcs[t := Releasing(e)], list := Linked(s.list, e, e.prio), linked := s.linked + [e]))
      case Releasing(e) =>
        if a.Go? then Some(s.(pcs := s.pcs[t := Posting(e)], access := s.access + 1)) else None
      case Posting(e) =>
        if a.Go? then Some(s.(pcs := s.pcs[t := Idle], count := s.count + 1)) else None
      case Receiving =>
        if a.Timeout? then Some(s.(pcs := s.pcs[t := Idle]))
        else if s.count > 0 && a.Go? then Some(s.(pcs := s.pcs[t := Counted], count := s.count - 1))
        else None
      case Counted =>
        if !a.Go? then None
        else if s.list == [] then Some(s.(pcs := s.pcs[t := Idle], starved := true))
        else Some(s.(pcs := s.pcs[t := Checked]))
      case Checked =>
        if s.access > 0 && a.Go? then Some(s.(pcs := s.pcs[t := Dequeuing], access := s.access - 1)) else None
      case Dequeuing =>
        if !a.Go? then None
        else if s.list == [] then Some(s.(pcs := s.pcs[t := Idle], starved := true))
        else
          Some(s.(pcs := s.pcs[t := Leaving(s.list[0])], list := s.list[1..], taken := s.taken + [s.list[0]]))
      case Leaving(e) =>
        if a.Go? then Some(s.(pcs := s.pcs[t := Idle], access := s.access + 1)) else None
  }

  function Run(s: State, run: seq<(nat, Action)>): Option<State>
    decreases |run|
  {
    if run == [] then Some(s)
    else
      match Step(s, run[0].0, run[0].1)
      case None => None
      case Some(next) => Run(next, run[1..])
  }

  // ---- what threads count as

  function Inside(pc: Pc): nat {
    if pc.Linking? || pc.Releasing? || pc.Dequeuing? || pc.Leaving? then 1 else 0
  }

  // linked but not yet posted
  function Unposted(pc: Pc): nat {
    if pc.Releasing? || pc.Posting? then 1 else 0
  }

  // past the count wait but nothing dequeued yet
  function Entitled(pc: Pc): nat {
    if pc.Counted? || pc.Checked? || pc.Dequeuing? then 1 else 0
  }

  function TailAdded(list: seq<Entry>): seq<Entry> {
    if list == [] then []
    else if list[0].prio then TailAdded(list[1..])
    else [list[0]] + TailAdded(list[1..])
  }

  lemma {:induction false} TailAddedAppend(a: seq<Entry>, b: seq<Entry>)
    ensures TailAdded(a + b) == TailAdded(a) + TailAdded(b)
  {
    if a == [] {
      assert a + b == b;
      assert [] + TailAdded(b) == TailAdded(b);
    } else {
      TailAddedAppend(a[1..], b);
      assert (a + b)[1..] == a[1..] + b;
      Assoc([a[0]], TailAdded(a[1..]), TailAdded(b));
    }
  }

  lemma TailAddedOne(e: Entry)
    ensures TailAdded([e]) == if e.prio then [] else [e]
  {
    assert [e][1..] == [];
  }

  // ---- the invariant of every run

  // one thread inside at most; a node for every token, every entitled receiver and every unposted add
  ghost predicate Counts(s: State) {
    Exclusive(s) && Accounted(s)
  }

  ghost predicate Exclusive(s: State) {
    s.access + Total(s.pcs, Inside) == 1
  }

  ghost predicate Accounted(s: State) {
    |s.list| == s.count + Total(s.pcs, Entitled) + Total(s.pcs, Unposted)
  }

  // every entry linked is listed or was taken, and those added to the tail are taken in order
  ghost predicate Kept(list: seq<Entry>, linked: seq<Entry>, taken: seq<Entry>) {
    && multiset(linked) == multiset(list) + multiset(taken)
    && TailAdded(linked) == TailAdded(taken) + TailAdded(list)
  }

  ghost predicate Inv(s: State) {
    Counts(s) && Kept(s.list, s.linked, s.taken) && !s.starved
  }

  lemma InitInv(threads: nat)
    ensures Inv(Init(threads))
  {
    var s := Init(threads);
    TotalZero(s.pcs, Inside);
    TotalZero(s.pcs, Entitled);
    TotalZero(s.pcs, Unposted);
  }

  lemma StepMoves(s: State, t: nat, a: Action)
    requires Step(s, t, a).Some?
    ensures var next := Step(s, t, a).value; |next.pcs| == |s.pcs| && next.pcs == s.pcs[t := next.pcs[t]]
  {
  }

  lemma MovedIn(pcs: seq<Pc>, t: nat, pc: Pc)
    requires t < |pcs|
    ensures Total(pcs[t := pc], Inside) == Total(pcs, Inside) - Inside(pcs[t]) + Inside(pc)
    ensures Inside(pcs[t]) <= Total(pcs, Inside)
  {
    TotalUpdate(pcs, t, pc, Inside);
    TotalAtLeast(pcs, t, Inside);
  }

  lemma Moved(pcs: seq<Pc>, t: nat, pc: Pc)
    requires t < |pcs|
    ensures Total(pcs[t := pc], Entitled) == Total(pcs, Entitled) - Entitled(pcs[t]) + Entitled(pc)
    ensures Total(pcs[t := pc], Unposted) == Total(pcs, Unposted) - Unposted(pcs[t]) + Unposted(pc)
    ensures Entitled(pcs[t]) <= Total(pcs, Entitled)
  {
    TotalUpdate(pcs, t, pc, Entitled);
    TotalUpdate(pcs, t, pc, Unposted);
    TotalAtLeast(pcs, t, Entitled);
  }

  lemma LinkKeepsOrder(list: seq<Entry>, linked: seq<Entry>, taken: seq<Entry>, e: Entry)
    requires TailAdded(linked) == TailAdded(taken) + TailAdded(list)
    ensures TailAdded(linked + [e]) == TailAdded(taken) + TailAdded(Linked(list, e, e.prio))
  {
    TailAddedAppend(linked, [e]);
    TailAddedOne(e);
    if e.prio {
      TailAddedAppend([e], list);
      assert [] + TailAdded(list) == TailAdded(list);
    } else {
      TailAddedAppend(list, [e]);
      Assoc(TailAdded(taken), TailAdded(list), [e]);
    }
  }

  lemma LinkKeeps(list: seq<Entry>, linked: seq<Entry>, taken: seq<Entry>, e: Entry)
    requires Kept(list, linked, taken)
    ensures Kept(Linked(list, e, e.prio), linked + [e], taken)
  {
    LinkKeepsOrder(list, linked, taken, e);
    assert multiset(Linked(list, e, e.prio)) == multiset(list) + multiset{e};
  }

  lemma TakeKeeps(list: seq<Entry>, linked: seq<Entry>, taken: seq<Entry>)
    requires list != [] && Kept(list, linked, taken)
    ensures Kept(list[1..], linked, taken + [list[0]])
  {
    assert list == [list[0]] + list[1..];
    assert multiset(list) == multiset{list[0]} + multiset(list[1..]);
    TailAddedAppend(taken, [list[0]]);
    TailAddedAppend([list[0]], list[1..]);
    Assoc(TailAdded(taken), TailAdded([list[0]]), TailAdded(list[1..]));
  }

  lemma StepExcludes(s: State, t: nat, a: Action)
    requires Exclusive(s) && Step(s, t, a).Some? && !Step(s, t, a).value.starved
    ensures Exclusive(Step(s, t, a).value)
  {
    StepMoves(s, t, a);
    MovedIn(s.pcs, t, Step(s, t, a).value.pcs[t]);
  }

  // a receiver past the count wait is owed a node
  lemma NeverStarved(s: State, t: nat, a: Action)
    requires Accounted(s) && !s.starved && Step(s, t, a).Some?
    ensures !Step(s, t, a).value.starved
  {
    TotalAtLeast(s.pcs, t, Entitled);
  }

  lemma StepAccounts(s: State, t: nat, a: Action)
    requires Accounted(s) && Step(s, t, a).Some? && !Step(s, t, a).value.starved
    ensures Accounted(Step(s, t, a).value)
  {
    StepMoves(s, t, a);
    Moved(s.pcs, t, Step(s, t, a).value.pcs[t]);
  }

  lemma StepCounts(s: State, t: nat, a: Action)
    requires Counts(s) && !s.starved && Step(s, t, a).Some?
    ensures Counts(Step(s, t, a).value) && !Step(s, t, a).value.starved
  {
    NeverStarved(s, t, a);
    StepExcludes(s, t, a);
    StepAccounts(s, t, a);
  }

  lemma LinkingStep(s: State, t: nat, a: Action, e: Entry)
    requires t < |s.pcs| && s.pcs[t] == Linking(e) && Step(s, t, a).Some?
    ensures var next := Step(s, t, a).value;
      next.list == Linked(s.list, e, e.prio) && next.linked == s.linked + [e] && next.taken == s.taken
  {
  }

  lemma DequeuingStep(s: State, t: nat, a: Action)
    requires t < |s.pcs| && s.pcs[t].Dequeuing? && s.list != [] && Step(s, t, a).Some?
    ensures var next := Step(s, t, a).value;
      next.list == s.list[1..] && next.linked == s.linked && next.taken == s.taken + [s.list[0]]
  {
  }

  lemma OtherStep(s: State, t: nat, a: Action)
    requires t < |s.pcs| && Step(s, t, a).Some? && !s.pcs[t].Linking? && !(s.pcs[t].Dequeuing? && s.list != [])
    ensures var next := Step(s, t, a).value;
      next.list == s.list && next.linked == s.linked && next.taken == s.taken
  {
  }

  lemma StepKeeps(s: State, t: nat, a: Action)
    requires Kept(s.list, s.linked, s.taken) && Step(s, t, a).Some?
    ensures var next := Step(s, t, a).value; Kept(next.list, next.linked, next.taken)
  {
    if s.pcs[t].Linking? {
      LinkingStep(s, t, a, s.pcs[t].e);
      LinkKeeps(s.list, s.linked, s.taken, s.pcs[t].e);
    } else if s.pcs[t].Dequeuing? && s.list != [] {
      DequeuingStep(s, t, a);
      TakeKeeps(s.list, s.linked, s.taken);
    } else {
      OtherStep(s, t, a);
    }
  }

  lemma StepInv(s: State, t: nat, a: Action)
    requires Inv(s) && Step(s, t, a).Some?
    ensures Inv(Step(s, t, a).value)
  {
    StepCounts(s, t, a);
    StepKeeps(s, t, a);
  }

  // whatever the threads do, in whatever order
  lemma {:induction false} RunInv(s: State, run: seq<(nat, Action)>)
    requires Inv(s) && Run(s, run).Some?
    ensures Inv(Run(s, run).value)
    decreases |run|
  {
    if run != [] {
      StepInv(s, run[0].0, run[0].1);
      RunInv(Step(s, run[0].0, run[0].1).value, run[1..]);
    }
  }

  ghost predicate Reachable(s: State, threads: nat) {
    exists run :: Run(Init(threads), run) == Some(s)
  }

  lemma ReachableInv(s: State, threads: nat)
    requires Reachable(s, threads)
    ensures Inv(s)
  {
    var run :| Run(Init(threads), run) == Some(s);
    InitInv(threads);
    RunInv(Init(threads), run);
  }

  // a receiver past the count wait always finds a head
  lemma HeadIsThere(s: State, threads: nat, t: nat)
    requires Reachable(s, threads) && t < |s.pcs| && (s.pcs[t].Counted? || s.pcs[t].Checked? || s.pcs[t].Dequeuing?)
    ensures s.list != []
  {
    ReachableInv(s, threads);
    TotalAtLeast(s.pcs, t, Entitled);
  }

  // no two threads are in the list at once
  lemma MutualExclusion(s: State, threads: nat, t: nat, u: nat)
    requires Reachable(s, threads) && t < u < |s.pcs|
    ensures Inside(s.pcs[t]) + Inside(s.pcs[u]) <= 1
  {
    ReachableInv(s, threads);
    TotalOfTwo(s.pcs, t, u, Inside);
  }

  // when no call is under way, everything linked was taken once or is counted and still listed
  lemma NothingLost(s: State, threads: nat)
    requires Reachable(s, threads) && forall t :: 0 <= t < |s.pcs| ==> s.pcs[t] == Idle
    ensures s.count == |s.list| == |s.linked| - |s.taken| && s.access == 1
    ensures multiset(s.linked) == multiset(s.taken + s.list)
  {
    ReachableInv(s, threads);
    TotalZero(s.pcs, Inside);
    TotalZero(s.pcs, Entitled);
    TotalZero(s.pcs, Unposted);
    assert |multiset(s.linked)| == |multiset(s.list)| + |multiset(s.taken)|;
  }

  // entries added to the tail are taken in the order they were linked
  lemma TailOrder(s: State, threads: nat)
    requires Reachable(s, threads)
    ensures TailAdded(s.taken) <= TailAdded(s.linked)
  {
    ReachableInv(s, threads);
  }

  // a thread that waits for access is waiting for one that can go on
  lemma AccessComesBack(s: State, threads: nat) returns (t: nat)
    requires Reachable(s, threads) && s.access == 0
    ensures t < |s.pcs| && Inside(s.pcs[t]) == 1 && Step(s, t, Go).Some?
  {
    ReachableInv(s, threads);
    t := TotalPositive(s.pcs, Inside);
  }

  // ---- what was listed at some moment is taken in the order of the list

  // since then k of these entries have been taken, the others still stand together, with more before and behind them
  datatype Place = Place(k: nat, before: seq<Entry>, behind: seq<Entry>, at: seq<nat>)

  ghost predicate InLine(was: seq<Entry>, taken: seq<Entry>, list: seq<Entry>, p: Place) {
    && p.k <= |was| && list == p.before + was[p.k..] + p.behind && |p.at| == p.k
    && (forall i :: 0 <= i < p.k ==> p.at[i] < |taken| && taken[p.at[i]] == was[i])
    && forall i, j :: 0 <= i < j < p.k ==> p.at[i] < p.at[j]
  }

  lemma LinkInLine(was: seq<Entry>, taken: seq<Entry>, list: seq<Entry>, p: Place, e: Entry) returns (q: Place)
    requires InLine(was, taken, list, p)
    ensures InLine(was, taken, Linked(list, e, e.prio), q)
  {
    EndsGrow(e, p.before, was[p.k..], p.behind);
    if e.prio {
      q := p.(before := [e] + p.before);
    } else {
      q := p.(behind := p.behind + [e]);
    }
  }

  lemma EndsGrow(e: Entry, before: seq<Entry>, still: seq<Entry>, behind: seq<Entry>)
    ensures [e] + (before + still + behind) == ([e] + before) + still + behind
    ensures before + still + behind + [e] == before + still + (behind + [e])
  {
  }

  lemma TakeInLine(was: seq<Entry>, taken: seq<Entry>, list: seq<Entry>, p: Place) returns (q: Place)
    requires InLine(was, taken, list, p) && list != []
    ensures InLine(was, taken + [list[0]], list[1..], q)
  {
    if p.before != [] {
      q := p.(before := p.before[1..]);
    } else if p.k < |was| {
      q := p.(k := p.k + 1, at := p.at + [|taken|]);
    } else {
      q := p.(behind := p.behind[1..]);
    }
  }

  lemma StepInLine(s: State, t: nat, a: Action, was: seq<Entry>, taken: seq<Entry>, p: Place)
    returns (more: seq<Entry>, q: Place)
    requires InLine(was, taken, s.list, p) && Step(s, t, a).Some?
    ensures var next := Step(s, t, a).value;
      next.taken == s.taken + more && InLine(was, taken + more, next.list, q)
  {
    more, q := [], p;
    if s.pcs[t].Linking? {
      LinkingStep(s, t, a, s.pcs[t].e);
      q := LinkInLine(was, taken, s.list, p, s.pcs[t].e);
    } else if s.pcs[t].Dequeuing? && s.list != [] {
      DequeuingStep(s, t, a);
      more := [s.list[0]];
      q := TakeInLine(was, taken, s.list, p);
    } else {
      OtherStep(s, t, a);
    }
    assert taken + [] == taken && s.taken + [] == s.taken;
  }

  lemma {:induction false} RunInLine(s: State, run: seq<(nat, Action)>, was: seq<Entry>, taken: seq<Entry>, p: Place)
    returns (more: seq<Entry>, q: Place)
    requires InLine(was, taken, s.list, p) && Run(s, run).Some?
    ensures var end := Run(s, run).value; end.taken == s.taken + more && InLine(was, taken + more, end.list, q)
    decreases |run|
  {
    if run == [] {
      more, q := [], p;
      assert taken + [] == taken && s.taken + [] == s.taken;
    } else {
      var now, p' := StepInLine(s, run[0].0, run[0].1, was, taken, p);
      var later;
      later, q := RunInLine(Step(s, run[0].0, run[0].1).value, run[1..], was, taken + now, p');
      more := now + later;
      Assoc(taken, now, later);
      Assoc(s.taken, now, later);
    }
  }

  // whatever runs on, the entries listed now are the first k of them taken, in their order, and the others listed, in
  // theirs
  lemma TakenInOrder(s: State, run: seq<(nat, Action)>) returns (more: seq<Entry>, p: Place)
    requires Run(s, run).Some?
    ensures var end := Run(s, run).value; end.taken == s.taken + more && InLine(s.list, more, end.list, p)
  {
    assert s.list == [] + s.list[0..] + [];
    more, p := RunInLine(s, run, s.list, [], Place(0, [], [], []));
    assert [] + more == more;
  }

  // an entry with priority is linked before all that is listed, so it is taken before any of that
  lemma PriorityFirst(s: State, t: nat, run: seq<(nat, Action)>) returns (more: seq<Entry>, p: Place)
    requires t < |s.pcs| && s.pcs[t].Linking? && s.pcs[t].e.prio
    requires Run(s, [(t, Go)] + run).Some?
    ensures var e, end := s.pcs[t].e, Run(s, [(t, Go)] + run).value;
      && Step(s, t, Go).value.list == [e] + s.list
      && end.taken == s.taken + more && InLine([e] + s.list, more, end.list, p)
  {
    assert ([(t, Go)] + run)[1..] == run;
    LinkingStep(s, t, Go, s.pcs[t].e);
    more, p := TakenInOrder(Step(s, t, Go).value, run);
  }

  // one without is linked behind all of it
  lemma OthersLast(s: State, t: nat, run: seq<(nat, Action)>) returns (more: seq<Entry>, p: Place)
    requires t < |s.pcs| && s.pcs[t].Linking? && !s.pcs[t].e.prio
    requires Run(s, [(t, Go)] + run).Some?
    ensures var e, end := s.pcs[t].e, Run(s, [(t, Go)] + run).value;
      && Step(s, t, Go).value.list == s.list + [e]
      && end.taken == s.taken + more && InLine(s.list + [e], more, end.list, p)
  {
    assert ([(t, Go)] + run)[1..] == run;
    LinkingStep(s, t, Go, s.pcs[t].e);
    more, p := TakenInOrder(Step(s, t, Go).value, run);
  }

  // ---- what is added can be received

  lemma RunCons(s: State, t: nat, a: Action, rest: seq<(nat, Action)>)
    requires Step(s, t, a).Some?
    ensures Run(s, [(t, a)] + rest) == Run(Step(s, t, a).value, rest)
  {
    assert ([(t, a)] + rest)[1..] == rest;
  }

  // a call of llq_add that nothing interrupts
  lemma AddOne(s: State, t: nat, e: Entry) returns (run: seq<(nat, Action)>)
    requires t < |s.pcs| && s.pcs[t] == Idle && s.access > 0
    ensures Run(s, run)
         == Some(s.(count := s.count + 1, linked := s.linked + [e],
                    list := if e.prio then [e] + s.list else s.list + [e]))
  {
    var s1 := Step(s, t, Add(e)).value;
    var s2 := Step(s1, t, Go).value;
    var s3 := Step(s2, t, Go).value;
    var s4 := Step(s3, t, Go).value;
    RunCons(s4, t, Go, []);
    RunCons(s3, t, Go, [(t, Go)] + []);
    RunCons(s2, t, Go, [(t, Go)] + ([(t, Go)] + []));
    RunCons(s1, t, Go, [(t, Go)] + ([(t, Go)] + ([(t, Go)] + [])));
    run := [(t, Add(e))] + ([(t, Go)] + ([(t, Go)] + ([(t, Go)] + ([(t, Go)] + []))));
    RunCons(s, t, Add(e), run[1..]);
    assert Step(s4, t, Go).value.pcs == s.pcs;
  }

  // and one of llq_timedreceive on a queue that is not empty
  lemma ReceiveOne(s: State, t: nat) returns (run: seq<(nat, Action)>)
    requires t < |s.pcs| && s.pcs[t] == Idle && s.access > 0 && s.count > 0 && s.list != []
    ensures Run(s, run) == Some(s.(count := s.count - 1, list := s.list[1..], taken := s.taken + [s.list[0]]))
  {
    var s1 := Step(s, t, Receive).value;
    var s2 := Step(s1, t, Go).value;
    var s3 := Step(s2, t, Go).value;
    var s4 := Step(s3, t, Go).value;
    var s5 := Step(s4, t, Go).value;
    RunCons(s5, t, Go, []);
    RunCons(s4, t, Go, [(t, Go)] + []);
    RunCons(s3, t, Go, [(t, Go)] + ([(t, Go)] + []));
    RunCons(s2, t, Go, [(t, Go)] + ([(t, Go)] + ([(t, Go)] + [])));
    RunCons(s1, t, Go, [(t, Go)] + ([(t, Go)] + ([(t, Go)] + ([(t, Go)] + []))));
    run := [(t, Receive)] + ([(t, Go)] + ([(t, Go)] + ([(t, Go)] + ([(t, Go)] + ([(t, Go)] + [])))));
    RunCons(s, t, Receive, run[1..]);
    assert Step(s5, t, Go).value.pcs == s.pcs;
  }

  lemma {:induction false} RunJoins(s: State, a: seq<(nat, Action)>, b: seq<(nat, Action)>)
    requires Run(s, a).Some?
    ensures Run(s, a + b) == Run(Run(s, a).value, b)
    decreases |a|
  {
    if a == [] {
      assert a + b == b;
    } else {
      assert (a + b)[0] == a[0] && (a + b)[1..] == a[1..] + b;
      RunJoins(Step(s, a[0].0, a[0].1).value, a[1..], b);
    }
  }

  // with no call under way, one thread can receive everything that is listed, in the order of the list
  lemma {:induction false} AllReceived(s: State, t: nat) returns (run: seq<(nat, Action)>)
    requires t < |s.pcs| && s.pcs[t] == Idle && s.access > 0 && s.count == |s.list|
    ensures Run(s, run) == Some(s.(count := 0, list := [], taken := s.taken + s.list))
    decreases |s.list|
  {
    if s.list == [] {
      run := [];
      assert s.taken + [] == s.taken;
    } else {
      var first := ReceiveOne(s, t);
      var next := Run(s, first).value;
      var more := AllReceived(next, t);
      run := first + more;
      RunJoins(s, first, more);
      Assoc(s.taken, [s.list[0]], s.list[1..]);
      assert [s.list[0]] + s.list[1..] == s.list;
    }
  }
}
