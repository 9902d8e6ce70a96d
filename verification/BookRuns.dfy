// Runs of the registry, as its book sees them; Events performs them on the heap.
module BookRuns {
  import opened Book
  import opened Sequences

  datatype Operation =
    | Get(c: Connection)
    | Insert(c: Connection, k: nat)
    | Delete(c: Connection)
    | Sweep(overdue: set<Connection>)

  const EMPTY := Book([], [], {}, [])

  // get gives the first free connection or a new one; insert takes one handed out, delete a live one
  ghost predicate Possible(b: Book, op: Operation) {
    match op
    case Get(c) =>
      if b.free != [] then c == b.free[0]
      else c !in Members(b) && c.rawfifo.Shape() && forall d :: d in Members(b) ==> Apart(c, d) && Apart(d, c)
    case Insert(c, k) => c in b.handed && k <= |b.byFd|
    case Delete(c) => c in b.live
    case Sweep(overdue) => overdue <= Elements(b.live)
  }

  ghost function Apply(b: Book, op: Operation): Book
    requires Possible(b, op)
  {
    match op
    case Get(c) => if b.free != [] then Reused(b) else Created(b, c)
    case Insert(c, k) => Enlisted(b, c, k)
    case Delete(c) => Retired(b, c)
    case Sweep(overdue) => Swept(b, overdue)
  }

  ghost predicate Runs(b: Book, ops: seq<Operation>)
    decreases |ops|
  {
    ops == [] || (Possible(b, ops[0]) && Runs(Apply(b, ops[0]), ops[1..]))
  }

  ghost function After(b: Book, ops: seq<Operation>): Book
    requires Runs(b, ops)
    decreases |ops|
  {
    if ops == [] then b else After(Apply(b, ops[0]), ops[1..])
  }

  // the connections handed out at some time
  ghost function Taken(ops: seq<Operation>): set<Connection> {
    if ops == [] then {} else (if ops[0].Get? then {ops[0].c} else {}) + Taken(ops[1..])
  }

  lemma {:induction false} SweptToSound(b: Book, gone: set<Connection>, i: nat)
    requires Sound(b) && i <= |b.live|
    ensures Sound(SweptTo(b, gone, i)) && Members(SweptTo(b, gone, i)) == Members(b)
  {
    if i == 0 {
      SweepStart(b, gone);
    } else {
      SweptToSound(b, gone, i - 1);
      SweepStep(b, gone, i - 1);
      RetiredSound(SweptTo(b, gone, i - 1), b.live[i - 1]);
    }
  }

  lemma ApplySound(b: Book, op: Operation)
    requires Sound(b) && Possible(b, op)
    ensures Sound(Apply(b, op)) && Members(Apply(b, op)) == Members(b) + if op.Get? then {op.c} else {}
  {
    match op
    case Get(c) =>
      if b.free != [] {
        ReusedSound(b);
        assert c in Elements(b.free);
      } else {
        CreatedSound(b, c);
      }
    case Insert(c, k) => EnlistedSound(b, c, k);
    case Delete(c) => RetiredSound(b, c);
    case Sweep(overdue) =>
      SweptToSound(b, overdue, |b.live|);
      SweepEnd(b, overdue);
  }

  lemma {:induction false} RunsSound(b: Book, ops: seq<Operation>)
    requires Sound(b) && Runs(b, ops)
    ensures Sound(After(b, ops)) && Members(After(b, ops)) == Members(b) + Taken(ops)
    decreases |ops|
  {
    if ops != [] {
      ApplySound(b, ops[0]);
      RunsSound(Apply(b, ops[0]), ops[1..]);
    }
  }

  // after any run the tree and the live list hold the same connections, each once, and every
  // connection ever handed out is live, free or handed out, and only one of these
  lemma RegistryAgrees(ops: seq<Operation>, c: Connection)
    requires Runs(EMPTY, ops)
    ensures var b := After(EMPTY, ops);
      && (c in b.byFd <==> c in b.live) && Distinct(b.live) && Distinct(b.byFd)
      && (c in Taken(ops) <==> c in b.live || c in b.free || c in b.handed)
      && !(c in b.live && c in b.free) && !(c in b.live && c in b.handed) && !(c in b.free && c in b.handed)
  {
    RunsSound(EMPTY, ops);
    var b := After(EMPTY, ops);
    assert c in Elements(b.byFd) <==> c in Elements(b.live);
    assert c in Members(b) <==> c in Elements(b.live) || c in Elements(b.free) || c in b.handed;
  }

  // ---- connections are handed out again in the order in which they were retired

  // those retired, in order: a sweep retires the overdue ones in the order of the live list
  ghost function Freed(b: Book, ops: seq<Operation>): seq<Connection>
    requires Runs(b, ops)
    decreases |ops|
  {
    if ops == [] then []
    else
      var first := match ops[0] case Delete(c) => [c] case Sweep(overdue) => Only(b.live, overdue) case _ => [];
      first + Freed(Apply(b, ops[0]), ops[1..])
  }

  // those handed out that were not new
  ghost function Recycled(b: Book, ops: seq<Operation>): seq<Connection>
    requires Runs(b, ops)
    decreases |ops|
  {
    if ops == [] then []
    else
      var first := if ops[0].Get? && b.free != [] then [ops[0].c] else [];
      first + Recycled(Apply(b, ops[0]), ops[1..])
  }

  lemma {:induction false} FirstRetiredFirst(b: Book, ops: seq<Operation>)
    requires Runs(b, ops)
    ensures b.free + Freed(b, ops) == Recycled(b, ops) + After(b, ops).free
    decreases |ops|
  {
    if ops == [] {
      assert b.free + [] == [] + b.free;
    } else {
      var b' := Apply(b, ops[0]);
      var freed, recycled := Freed(b', ops[1..]), Recycled(b', ops[1..]);
      FirstRetiredFirst(b', ops[1..]);
      match ops[0]
      case Get(c) =>
        if b.free != [] {
          assert b.free == [c] + b'.free && [] + freed == freed;
          Assoc([c], b'.free, freed);
          Assoc([c], recycled, After(b, ops).free);
        } else {
          assert [] + freed == freed && [] + recycled == recycled;
        }
      case Insert(_, _) => assert [] + freed == freed && [] + recycled == recycled;
      case Delete(c) =>
        Assoc(b.free, [c], freed);
        assert [] + recycled == recycled;
      case Sweep(overdue) =>
        Assoc(b.free, Only(b.live, overdue), freed);
        assert [] + recycled == recycled;
    }
  }
}
