// The registry of connection.c: tree, live list and free list on the heap, in step with the book.
module Connections {
  import opened Arithmetic
  import opened Sequences
  import opened Kfifo
  import opened Lists
  import opened RbTree
  import opened RbInsert
  import opened RbErasure
  import opened RbWalk
  import opened Book

  ghost predicate Precedes(s: seq<Connection>, i: int, j: int)
    requires 0 <= i < |s| && 0 <= j < |s|
    reads s`fd
  {
    s[i].fd < s[j].fd
  }

  ghost predicate SortedByFd(s: seq<Connection>)
    reads s`fd
  {
    forall i, j {:trigger Precedes(s, i, j)} :: 0 <= i < j < |s| ==> Precedes(s, i, j)
  }

  // a client or server connection that has been silent for longer than the timeout
  predicate Overdue(c: Connection, now: int, timeout: int)
    reads c`kind, c`timestamp
  {
    (c.kind == CONN_SOCKET_SERVER || c.kind == CONN_SOCKET_CLIENT) && now - c.timestamp > timeout
  }

  class Registry {
    const liveHead: ListHead
    const freeHead: ListHead
    const root: RbRoot
    const timeout: int
    var all: set<Connection>
    ghost var book: Book
    ghost var liveLinks: seq<ListHead>
    ghost var freeLinks: seq<ListHead>
    ghost var Repr: set<object>

    // all the objects behind the registry
    ghost predicate Owned()
      reads this`all, this`Repr, root`Repr
    {
      && this in Repr && liveHead in Repr && freeHead in Repr && root in Repr && root.Repr <= Repr
      && forall c :: c in all ==>
        && c in Repr && c.list in Repr && c.node in Repr && c.rawfifo in Repr && c.rawfifo.buffer in Repr
        && c.list != liveHead && c.list != freeHead
    }

    ghost predicate LiveRing()
      reads this`liveLinks, Span(liveHead, liveLinks)
    {
      Ring(liveHead, liveLinks)
    }

    ghost predicate FreeRing()
      reads this`freeLinks, Span(freeHead, freeLinks)
    {
      Ring(freeHead, freeLinks)
    }

    // the links of the two lists
    ghost function Rings(): set<ListHead>
      reads this`liveLinks, this`freeLinks
    {
      Span(liveHead, liveLinks) + Span(freeHead, freeLinks)
    }

    // the search tree holds the live connections in the order of their descriptors
    ghost predicate Indexed()
      reads this`book, root, root.Repr, book.byFd`fd
    {
      root.Valid() && Inorder(root.tree) == NodesOf(book.byFd) && SortedByFd(book.byFd)
    }

    ghost predicate Booked()
      reads this`book, this`all, this`liveLinks, this`freeLinks
    {
      Sound(book) && all == Members(book) && liveLinks == Links(book.live) && freeLinks == Links(book.free)
    }

    // what a search relies on
    ghost predicate Searchable()
      reads this`book, this`all, this`liveLinks, this`freeLinks, root, root.Repr, book.byFd`fd
    {
      Booked() && Indexed()
    }

    ghost predicate Valid()
      reads this, Repr
    {
      InStep()
    }

    // tree, lists and book agree
    ghost predicate InStep()
      reads this, Repr
    {
      && this in Repr && root in Repr && Owned() && liveHead != freeHead
      && Booked() && LiveRing() && FreeRing() && Indexed()
    }

    constructor (timeout: int)
      ensures Valid() && all == {} && book == Book([], [], {}, []) && this.timeout == timeout
      ensures Repr == {this, liveHead, freeHead, root} && fresh(liveHead) && fresh(freeHead) && fresh(root)
    {
      this.timeout := timeout;
      liveHead := new ListHead();
      freeHead := new ListHead();
      root := new RbRoot();
      all, book, liveLinks, freeLinks := {}, Book([], [], {}, []), [], [];
      new;
      Repr := {this, liveHead, freeHead, root};
      NothingYet();
    }

    lemma NothingYet()
      requires all == {} && book == Book([], [], {}, []) && liveLinks == freeLinks == []
      requires Repr == {this, liveHead, freeHead, root} && liveHead != freeHead
      requires liveHead.next == liveHead.prev == liveHead && freeHead.next == freeHead.prev == freeHead
      requires root.Valid() && root.tree == Leaf
      ensures Valid()
    {
    }

    // ---- what the parts say about each other

    lemma TreeNodes()
      requires Searchable()
      ensures forall n :: n in root.Repr <==> n in NodesOf(book.byFd)
    {
      InorderNodes(root.tree);
    }

    // a connection that is not live has no part in the tree or in the live list
    lemma Outside(c: Connection)
      requires Valid() && c in all && c !in book.live
      ensures c.node !in root.Repr && c.list !in liveLinks
    {
      TreeNodes();
      assert c !in Elements(book.byFd);
      LinksOf(book, book.byFd, c);
      LinksOf(book, book.live, c);
    }

    lemma OutsideFree(c: Connection)
      requires Valid() && c in all && c !in book.free
      ensures c.list !in freeLinks
    {
      LinksOf(book, book.free, c);
    }

    lemma RingsApart()
      requires Valid()
      ensures Span(liveHead, liveLinks) !! Span(freeHead, freeLinks)
      ensures Span(liveHead, liveLinks) <= Repr && Span(freeHead, freeLinks) <= Repr
    {
      forall l | l in liveLinks
        ensures l !in freeLinks && l != freeHead && l in Repr
      {
        var i :| 0 <= i < |liveLinks| && liveLinks[i] == l;
        assert book.live[i] in Elements(book.live);
        OutsideFree(book.live[i]);
      }
      forall l | l in freeLinks
        ensures l != liveHead && l in Repr
      {
        var i :| 0 <= i < |freeLinks| && freeLinks[i] == l;
        assert book.free[i] in Elements(book.free);
      }
    }

    lemma FifosApart(c: Connection)
      requires Booked() && c in all
      ensures forall d :: d in all && d != c ==> d.rawfifo != c.rawfifo && d.rawfifo.buffer != c.rawfifo.buffer
    {
      forall d | d in all && d != c
        ensures d.rawfifo != c.rawfifo && d.rawfifo.buffer != c.rawfifo.buffer
      {
        assert Apart(c, d);
      }
    }

    // rb_entry: the connection a tree node is part of
    method RbEntry(node: RbNode) returns (c: Connection)
      requires Searchable() && node in root.Repr
      ensures c in all && c in book.live && c in book.byFd && c.node == node
    {
      TreeNodes();
      ghost var i :| 0 <= i < |book.byFd| && NodesOf(book.byFd)[i] == node;
      assert book.byFd[i] in Elements(book.byFd);
      c :| c in all && c.node == node;
      SameNode(book, c, book.byFd[i]);
    }

    // list_first_entry on the free list
    method FirstFree() returns (c: Connection)
      requires Valid() && book.free != []
      ensures c == book.free[0]
    {
      FirstLink();
      c :| c in all && c.list == freeHead.next;
      SameNode(book, c, book.free[0]);
    }

    lemma FirstLink()
      requires Valid()
      ensures book.free == [] <==> freeHead.next == freeHead
      ensures book.free != [] ==> freeHead.next == book.free[0].list && book.free[0] in all
    {
      assert Joined(freeHead, freeLinks, 0);
      if book.free != [] {
        assert book.free[0] in Elements(book.free);
        assert freeLinks[0] == book.free[0].list;
      }
    }

    method UnlinkFirstFree() returns (c: Connection)
      requires Valid() && book.free != []
      modifies this`book, this`freeLinks, Span(freeHead, freeLinks)
      ensures Valid() && c == old(book.free)[0] && book == Reused(old(book))
    {
      RingsApart();
      c := FirstFree();
      UnlinkFree(c);
    }

    method UnlinkFree(c: Connection)
      requires Valid() && book.free != [] && c == book.free[0] && Span(liveHead, liveLinks) !! Span(freeHead, freeLinks)
      modifies this`book, this`freeLinks, Span(freeHead, freeLinks)
      ensures Valid() && book == Reused(old(book))
    {
      ReusedSound(book);
      ReusedLinks(book);
      book := Reused(book);
      DropFirstFree(c.list);
    }

    method DropFirstFree(entry: ListHead)
      requires FreeRing() && freeLinks != [] && freeLinks[0] == entry
      modifies this`freeLinks, Span(freeHead, freeLinks)
      ensures FreeRing() && freeLinks == old(freeLinks)[1..]
    {
      ghost var was := freeLinks;
      freeLinks := was[1..];
      assert freeLinks == was[..0] + was[1..];
      ListDelInit(entry, freeHead, was, 0, freeLinks);
    }

    // a connection that is not live may be rewritten
    method ClearHanded(c: Connection, now: int)
      requires Valid() && c in book.handed
      modifies c, c.rawfifo`inn, c.rawfifo`out, c.node
      ensures Valid()
      ensures c.rawfifo.Valid() && c.rawfifo.Contents() == [] && c.rawfifo.inn == c.rawfifo.out == 0
      ensures c.fd == 0 && c.kind == CONN_FREE && c.timestamp == now
    {
      RingsApart();
      Outside(c);
      assert c !in Elements(book.byFd);
      c.Clear(now);
    }

    // connection_create
    method Create(now: int) returns (c: Connection)
      requires Valid()
      modifies this`all, this`book, this`Repr
      ensures Valid() && fresh(Repr - old(Repr)) && fresh(c) && c.rawfifo.size == FIFO_SIZE
      ensures all == old(all) + {c} && book == Created(old(book), c)
      ensures c.rawfifo.Valid() && c.rawfifo.Contents() == [] && c.rawfifo.inn == c.rawfifo.out == 0
      ensures c.fd == 0 && c.kind == CONN_FREE && c.timestamp == now
    {
      RingsApart();
      c := new Connection(now);
      Enroll(c);
    }

    // a connection that shares nothing with those there are
    method Enroll(c: Connection)
      requires Valid() && {c, c.list, c.node, c.rawfifo, c.rawfifo.buffer} !! Repr && c.rawfifo.Shape()
      modifies this`all, this`book, this`Repr
      ensures Valid() && Repr == old(Repr) + {c, c.list, c.node, c.rawfifo, c.rawfifo.buffer}
      ensures all == old(all) + {c} && book == Created(old(book), c)
    {
      RingsApart();
      CreatedSound(book, c);
      all, book := all + {c}, Created(book, c);
      assert Indexed();
      Repr := Repr + {c, c.list, c.node, c.rawfifo, c.rawfifo.buffer};
    }

    // freeconnlist_getconn
    method GetFreeConn(now: int) returns (c: Connection)
      requires Valid()
      modifies this, Repr
      ensures Valid() && fresh(Repr - old(Repr)) && all == old(all) + {c}
      ensures if old(book.free) == [] then fresh(c) && c.rawfifo.size == FIFO_SIZE && book == Created(old(book), c)
              else c == old(book.free)[0] && book == Reused(old(book))
      ensures c.rawfifo.Valid() && c.rawfifo.Contents() == [] && c.rawfifo.inn == c.rawfifo.out == 0
      ensures c.fd == 0 && c.kind == CONN_FREE && c.timestamp == now
      ensures forall d :: d in old(all) && d != c ==>
        unchanged(d) && unchanged(d.rawfifo) && unchanged(d.rawfifo.buffer)
    {
      FirstLink();
      if freeHead.next == freeHead {
        c := Create(now);
      } else {
        c := Recycle(now);
      }
    }

    // the first free connection, emptied
    method Recycle(now: int) returns (c: Connection)
      requires Valid() && book.free != []
      modifies this`book, this`freeLinks, Repr - {this}
      ensures Valid() && c == old(book).free[0] && c in all && book == Reused(old(book))
      ensures c.rawfifo.Valid() && c.rawfifo.Contents() == [] && c.rawfifo.inn == c.rawfifo.out == 0
      ensures c.fd == 0 && c.kind == CONN_FREE && c.timestamp == now
      ensures forall d :: d in all && d != c ==> unchanged(d) && unchanged(d.rawfifo) && unchanged(d.rawfifo.buffer)
    {
      FirstLink();
      RingsApart();
      c := UnlinkFirstFree();
      FifosApart(c);
      ClearHanded(c, now);
    }

    // connection_init
    method Init(c: Connection, fd: int, kind: int)
      requires Valid() && c in book.handed
      modifies c`fd, c`kind
      ensures Valid() && c.fd == fd && c.kind == kind
    {
      assert c !in Elements(book.byFd);
      RingsApart();
      c.fd := fd;
      c.kind := kind;
    }

    // ---- search

    // connrbtree_getconn; visited counts the nodes looked at
    method GetConn(fd: int) returns (c: Connection?, ghost visited: nat)
      requires Searchable()
      ensures c != null ==> c in book.live && c.fd == fd
      ensures c == null ==> forall d :: d in book.live ==> d.fd != fd
      ensures Pow2((visited + 1) / 2) <= |book.live| + 1
    {
      ghost var x, t;
      c, visited, x, t := Search(fd);
      SameSize();
      LogarithmicPath(root.tree, x, t, visited);
    }

    // the way down to where the search ended, x around t
    method Search(fd: int) returns (c: Connection?, ghost visited: nat, ghost x: Ctx, ghost t: Tree)
      requires Searchable()
      ensures c != null ==> c in book.live && c.fd == fd
      ensures c == null ==> forall d :: d in book.live ==> d.fd != fd
      ensures Plug(x, t) == root.tree && visited <= Depth(x) + (if t.Node? then 1 else 0)
    {
      var node := root.rbNode;
      ghost var lo, hi := 0, |book.byFd|;
      x, t := Top, root.tree;
      c, visited := null, 0;
      while node != null
        invariant At(root, x, t) && node == PtrOf(t) && Plug(x, t) == root.tree && visited == Depth(x)
        invariant Between(t, lo, hi, fd)
        decreases t
      {
        var d := RbEntry(node);
        visited := visited + 1;
        if fd > d.fd {
          lo := GoRight(t, lo, hi, fd, d);
          ZipRight(root, x, t);
          node := node.rbRight;
          x, t := InRight(x, t.ptr, t.color, t.left), t.right;
        } else if fd < d.fd {
          hi := GoLeft(t, lo, hi, fd, d);
          ZipLeft(root, x, t);
          node := node.rbLeft;
          x, t := InLeft(x, t.ptr, t.color, t.right), t.left;
        } else {
          return d, visited, x, t;
        }
      }
      NotThere(t, lo, hi, fd);
    }

    // the subtree t holds byFd[lo..hi], and fd can only be there
    ghost predicate Between(t: Tree, lo: int, hi: int, fd: int)
      reads this`book, book.byFd`fd
    {
      && 0 <= lo <= hi <= |book.byFd| && Inorder(t) == NodesOf(book.byFd)[lo..hi]
      && (forall i :: 0 <= i < lo ==> book.byFd[i].fd < fd)
      && (forall i :: hi <= i < |book.byFd| ==> book.byFd[i].fd > fd)
    }

    lemma NotThere(t: Tree, lo: int, hi: int, fd: int)
      requires Searchable() && t.Leaf? && Between(t, lo, hi, fd)
      ensures forall d :: d in book.live ==> d.fd != fd
    {
      assert lo == hi;
      forall d | d in book.live
        ensures d.fd != fd
      {
        assert d in Elements(book.byFd);
      }
    }

    lemma TopEntry(t: Tree, lo: int, hi: int, fd: int, d: Connection) returns (k: int)
      requires Booked() && t.Node? && Between(t, lo, hi, fd) && d in all && d.node == t.ptr
      ensures lo <= k < hi && book.byFd[k] == d
      ensures Inorder(t.left) == NodesOf(book.byFd)[lo..k] && Inorder(t.right) == NodesOf(book.byFd)[k + 1..hi]
    {
      k := SplitInorder(t, NodesOf(book.byFd), lo, hi);
      assert NodesOf(book.byFd)[k] == book.byFd[k].node && book.byFd[k] in Elements(book.byFd);
      SameNode(book, d, book.byFd[k]);
    }

    lemma GoRight(t: Tree, lo: int, hi: int, fd: int, d: Connection) returns (next: int)
      requires Booked() && SortedByFd(book.byFd) && t.Node? && Between(t, lo, hi, fd)
      requires d in all && d.node == t.ptr && fd > d.fd
      ensures Between(t.right, next, hi, fd) && lo < next && book.byFd[next - 1] == d
      ensures Inorder(t.left) == NodesOf(book.byFd)[lo..next - 1]
    {
      var k := TopEntry(t, lo, hi, fd, d);
      next := k + 1;
      forall i | 0 <= i < next ensures book.byFd[i].fd < fd {
        assert i < k ==> Precedes(book.byFd, i, k);
      }
    }

    lemma GoLeft(t: Tree, lo: int, hi: int, fd: int, d: Connection) returns (next: int)
      requires Booked() && SortedByFd(book.byFd) && t.Node? && Between(t, lo, hi, fd)
      requires d in all && d.node == t.ptr && fd < d.fd
      ensures Between(t.left, lo, next, fd) && next < hi && book.byFd[next] == d
      ensures Inorder(t.right) == NodesOf(book.byFd)[next + 1..hi]
    {
      next := TopEntry(t, lo, hi, fd, d);
      forall i | next <= i < |book.byFd| ensures book.byFd[i].fd > fd {
        assert next < i ==> Precedes(book.byFd, next, i);
      }
    }

    lemma SameSize()
      requires Searchable()
      ensures |Inorder(root.tree)| == |book.byFd| == |book.live|
    {
      DistinctSize(book.byFd);
      DistinctSize(book.live);
      assert (set c | c in book.byFd) == Elements(book.byFd) == Elements(book.live) == (set c | c in book.live);
    }

    // ---- insert

    // x leads to the part t of the tree where fd belongs
    ghost predicate Slot(x: Ctx, t: Tree, lo: int, hi: int, fd: int)
      reads this`book, book.byFd`fd
    {
      && Between(t, lo, hi, fd) && Fits(x, t)
      && Before(x) == NodesOf(book.byFd)[..lo] && After(x) == NodesOf(book.byFd)[hi..]
    }

    lemma SlotRight(x: Ctx, t: Tree, lo: int, hi: int, fd: int, d: Connection) returns (next: int)
      requires Booked() && SortedByFd(book.byFd) && t.Node? && At(root, x, t) && Slot(x, t, lo, hi, fd)
      requires d in all && d.node == t.ptr && fd > d.fd
      ensures var x' := InRight(x, t.ptr, t.color, t.left); At(root, x', t.right) && Slot(x', t.right, next, hi, fd)
      ensures d.node.rbRight == PtrOf(t.right)
    {
      ZipRight(root, x, t);
      next := GoRight(t, lo, hi, fd, d);
      CutBefore(NodesOf(book.byFd), lo, next - 1);
    }

    lemma SlotLeft(x: Ctx, t: Tree, lo: int, hi: int, fd: int, d: Connection) returns (next: int)
      requires Booked() && SortedByFd(book.byFd) && t.Node? && At(root, x, t) && Slot(x, t, lo, hi, fd)
      requires d in all && d.node == t.ptr && fd < d.fd
      ensures var x' := InLeft(x, t.ptr, t.color, t.right); At(root, x', t.left) && Slot(x', t.left, lo, next, fd)
      ensures d.node.rbLeft == PtrOf(t.left)
    {
      ZipLeft(root, x, t);
      next := GoLeft(t, lo, hi, fd, d);
      CutAfter(NodesOf(book.byFd), next, hi);
    }

    // one step down, at a node with another descriptor
    method StepDown(d: Connection, fd: int, ghost x0: Ctx, ghost t0: Tree, ghost lo0: nat, ghost hi0: nat)
      returns (node: RbNode?, onLeft: bool, ghost x: Ctx, ghost t: Tree, ghost lo: nat, ghost hi: nat)
      requires Booked() && SortedByFd(book.byFd) && t0.Node? && At(root, x0, t0) && Slot(x0, t0, lo0, hi0, fd)
      requires d in all && d.node == t0.ptr && fd != d.fd
      ensures At(root, x, t) && node == PtrOf(t) && Slot(x, t, lo, hi, fd) && (t == t0.left || t == t0.right)
      ensures ParentOf(x) == d.node && onLeft == x.InLeft?
    {
      lo, hi := lo0, hi0;
      if fd < d.fd {
        hi := SlotLeft(x0, t0, lo, hi, fd, d);
        node, onLeft := d.node.rbLeft, true;
        x, t := InLeft(x0, t0.ptr, t0.color, t0.right), t0.left;
      } else {
        lo := SlotRight(x0, t0, lo, hi, fd, d);
        node, onLeft := d.node.rbRight, false;
        x, t := InRight(x0, t0.ptr, t0.color, t0.left), t0.right;
      }
    }

    // the way down to the empty slot for fd, or to the connection that has it
    method FindSlot(fd: int) returns (found: Connection?, parent: RbNode?, onLeft: bool, ghost x: Ctx, ghost k: nat)
      requires Searchable()
      ensures found != null ==> found in book.live && found.fd == fd
      ensures found == null ==>
        && At(root, x, Leaf) && Slot(x, Leaf, k, k, fd)
        && parent == ParentOf(x) && (parent != null ==> onLeft == x.InLeft?)
    {
      parent, onLeft := null, false;
      var node := root.rbNode;
      ghost var t := root.tree;
      ghost var lo, hi := 0, |book.byFd|;
      x := Top;
      found, k := null, 0;
      while node != null
        invariant At(root, x, t) && node == PtrOf(t) && Slot(x, t, lo, hi, fd)
        invariant parent == ParentOf(x) && (parent != null ==> onLeft == x.InLeft?)
        decreases t
      {
        parent := node;
        var d := RbEntry(parent);
        if d.fd == fd {
          found := d;
          return;
        }
        node, onLeft, x, t, lo, hi := StepDown(d, fd, x, t, lo, hi);
      }
      k := lo;
    }

    // the tree half of connrbtree_insert
    method IndexConn(c: Connection) returns (ghost k: nat)
      requires Valid() && c in book.handed
      requires forall d :: d in book.live ==> d.fd != c.fd
      modifies this`book, root, root.Repr, c.node
      ensures k <= |old(book).byFd| && book == Enlisted(old(book), c, k) && Indexed()
      ensures root.Repr == old(root.Repr) + {c.node}
    {
      var found, parent, onLeft;
      ghost var x;
      found, parent, onLeft, x, k := FindSlot(c.fd);
      SlotFor(c, x, k);
      IndexAt(c, parent, onLeft, x, Enlisted(book, c, k));
    }

    // the empty slot found is the place of c
    lemma SlotFor(c: Connection, x: Ctx, k: nat)
      requires Valid() && c in book.handed && Slot(x, Leaf, k, k, c.fd)
      ensures k <= |book.byFd| && Fits(x, Leaf) && c.node !in root.Repr
      ensures Before(x) + [c.node] + After(x) == NodesOf(Enlisted(book, c, k).byFd)
      ensures SortedByFd(Enlisted(book, c, k).byFd)
    {
      Outside(c);
      EnlistedNodes(x, k, c);
      EnlistedSorted(k, c);
    }

    // the index of b has c where x leads to
    method IndexAt(c: Connection, parent: RbNode?, onLeft: bool, ghost x: Ctx, ghost b: Book)
      requires At(root, x, Leaf) && Fits(x, Leaf) && c.node !in root.Repr
      requires parent == ParentOf(x) && (parent != null ==> onLeft == x.InLeft?)
      requires Before(x) + [c.node] + After(x) == NodesOf(b.byFd) && SortedByFd(b.byFd)
      modifies this`book, root, root.Repr, c.node
      ensures book == b && Indexed() && root.Repr == old(root.Repr) + {c.node}
    {
      book := b;
      RbInsertAt(c.node, parent, onLeft, root, x);
    }

    lemma EnlistedNodes(x: Ctx, k: nat, c: Connection)
      requires Slot(x, Leaf, k, k, c.fd)
      ensures Before(x) + [c.node] + After(x) == NodesOf(Enlisted(book, c, k).byFd)
    {
      var s := book.byFd;
      assert NodesOf(s[..k] + [c] + s[k..]) == NodesOf(s)[..k] + [c.node] + NodesOf(s)[k..];
    }

    lemma EnlistedSorted(k: nat, c: Connection)
      requires SortedByFd(book.byFd) && Between(Leaf, k, k, c.fd)
      ensures SortedByFd(Enlisted(book, c, k).byFd)
    {
      SortedInsert(book.byFd, k, c);
    }

    // connrbtree_insert; the caller vouches for a new descriptor
    method Insert(c: Connection) returns (ghost k: nat)
      requires Valid() && c in book.handed
      requires forall d :: d in book.live ==> d.fd != c.fd
      modifies this`book, this`liveLinks, root, root.Repr, c.node, Rings(), c.list
      ensures Valid() && k <= |old(book).byFd| && book == Enlisted(old(book), c, k)
    {
      RingsApart();
      EnlistedOutside(c);
      k := IndexConn(c);
      EnlistedSound(old(book), c, k);
      EnlistLive(c, old(book));
    }

    // the list half of connrbtree_insert
    method EnlistLive(c: Connection, ghost was: Book)
      requires this in Repr && root in Repr && Owned() && liveHead != freeHead && Indexed() && LiveRing() && FreeRing()
      requires liveLinks == Links(was.live) && freeLinks == Links(book.free) && book.live == was.live + [c]
      requires Sound(book) && all == Members(book) && c in all
      requires c.list !in Span(liveHead, liveLinks) && c.list !in Span(freeHead, freeLinks)
      requires Span(liveHead, liveLinks) !! Span(freeHead, freeLinks)
      requires Span(liveHead, liveLinks) <= Repr && Span(freeHead, freeLinks) <= Repr
      modifies this`liveLinks, c.list, Span(liveHead, liveLinks)
      ensures Valid()
    {
      ghost var links := liveLinks;
      liveLinks := links + [c.list];
      assert liveLinks == Links(book.live);
      ListAddTail(c.list, liveHead, links);
    }

    lemma EnlistedOutside(c: Connection)
      requires Valid() && c in book.handed
      ensures c.list !in Span(liveHead, liveLinks) && c.list !in Span(freeHead, freeLinks)
    {
      Outside(c);
      OutsideFree(c);
    }

    // ---- delete

    // the index without c
    lemma UnindexedOrder(c: Connection)
      requires Booked() && Indexed() && c in book.live
      ensures c.node in root.Repr && SortedByFd(Without(book.byFd, c))
      ensures Without(Inorder(root.tree), c.node) == NodesOf(Without(book.byFd, c))
    {
      IndexedNode(c);
      RetiredNodes(book, book.byFd, c);
      RetiredSorted(book.byFd, c);
    }

    lemma IndexedNode(c: Connection)
      requires Booked() && Indexed() && c in book.live
      ensures c.node in root.Repr && c in Members(book) && forall d :: d in book.byFd ==> d in Members(book)
    {
      assert c in Elements(book.live);
      assert c in Elements(book.byFd);
      TreeNodes();
      var i :| 0 <= i < |book.byFd| && book.byFd[i] == c;
      assert NodesOf(book.byFd)[i] == c.node;
      assert forall d :: d in book.byFd ==> d in Elements(book.byFd);
    }

    // the tree half of connrbtree_del
    method UnindexConn(c: Connection)
      requires Valid() && c in book.live
      modifies this`book, root, root.Repr
      ensures book == Retired(old(book), c) && Indexed() && root.Repr <= old(root.Repr)
    {
      UnindexedOrder(c);
      book := Retired(book, c);
      RbErase(c.node, root);
    }

    // connrbtree_del
    method Delete(c: Connection)
      requires Valid() && c in book.live
      modifies this`book, this`liveLinks, this`freeLinks, root, root.Repr, Rings()
      ensures Valid() && book == Retired(old(book), c)
      ensures Rings() == old(Rings()) && root.Repr <= old(root.Repr)
    {
      RingsApart();
      assert c in Elements(book.live);
      UnindexConn(c);
      RetiredSound(old(book), c);
      RetireLive(c, old(book));
    }

    // the list half of connrbtree_del
    method RetireLive(c: Connection, ghost was: Book)
      requires this in Repr && root in Repr && Owned() && liveHead != freeHead && Indexed() && LiveRing() && FreeRing()
      requires Sound(was) && c in was.live && book == Retired(was, c)
      requires liveLinks == Links(was.live) && freeLinks == Links(was.free)
      requires Sound(book) && all == Members(book) && c in all
      requires Span(liveHead, liveLinks) !! Span(freeHead, freeLinks)
      requires Span(liveHead, liveLinks) <= Repr && Span(freeHead, freeLinks) <= Repr
      modifies this`liveLinks, this`freeLinks, Rings()
      ensures Valid() && Rings() == old(Rings())
    {
      ghost var k := RetiredLinks(was, c);
      MoveToFree(c.list, k);
    }

    // the k-th entry of the live list goes to the end of the free list
    method MoveToFree(entry: ListHead, ghost k: nat)
      requires LiveRing() && FreeRing() && Span(liveHead, liveLinks) !! Span(freeHead, freeLinks)
      requires k < |liveLinks| && liveLinks[k] == entry
      modifies this`liveLinks, this`freeLinks, Rings()
      ensures LiveRing() && FreeRing() && Rings() == old(Rings())
      ensures liveLinks == old(liveLinks)[..k] + old(liveLinks)[k + 1..] && freeLinks == old(freeLinks) + [entry]
    {
      ghost var links, frees := liveLinks, freeLinks;
      liveLinks, freeLinks := links[..k] + links[k + 1..], frees + [entry];
      SpansMoved(liveHead, links, k, freeHead, frees);
      ListMoveTail(entry, liveHead, links, k, liveLinks, freeHead, frees, freeLinks);
    }

    // ---- timeout sweep

    lemma LinkAfter(k: nat)
      requires Valid() && k < |book.live|
      ensures book.live[k] in all
      ensures book.live[k].list.next == if k + 1 < |book.live| then book.live[k + 1].list else liveHead
    {
      assert Joined(liveHead, liveLinks, k + 1);
      assert book.live[k] in Elements(book.live);
      assert liveLinks[k] == book.live[k].list;
    }

    lemma FirstLive()
      requires Valid()
      ensures liveHead.next == if book.live == [] then liveHead else book.live[0].list
    {
      assert Joined(liveHead, liveLinks, 0);
    }

    // list_entry on the live list
    method LiveEntry(pos: ListHead, ghost k: nat) returns (c: Connection)
      requires Valid() && k < |book.live| && pos == book.live[k].list
      ensures c == book.live[k]
    {
      assert book.live[k] in Elements(book.live);
      c :| c in all && c.list == pos;
      SameNode(book, c, book.live[k]);
    }

    // what is still to be looked at, judged before the sweep, would be judged the same now
    ghost predicate Judged(s: seq<Connection>, now: int, gone: set<Connection>, i: nat)
      reads this`all, s`kind, s`timestamp
    {
      forall j :: i <= j < |s| ==> s[j] in all && (s[j] in gone <==> Overdue(s[j], now, timeout))
    }

    // where the sweep stands, and where it goes next
    lemma SweepHere(was: Book, gone: set<Connection>, i: nat) returns (k: nat)
      requires Valid() && Sound(was) && i < |was.live| && book == SweptTo(was, gone, i)
      ensures k < |book.live| && book.live[k] == was.live[i]
      ensures was.live[i].list.next == if i + 1 < |was.live| then was.live[i + 1].list else liveHead
      ensures SweptTo(was, gone, i + 1) == if was.live[i] in gone then Retired(book, was.live[i]) else book
    {
      SweepStep(was, gone, i);
      SweptIndex(was, gone, i);
      k := |Minus(was.live[..i], gone)|;
      LinkAfter(k);
    }

    // one round of the sweep
    method SweepOne(pos: ListHead, now: int, ghost was: Book, ghost gone: set<Connection>, ghost i: nat)
      returns (n: ListHead, ghost next: nat)
      requires Valid() && Sound(was) && i < |was.live| && book == SweptTo(was, gone, i)
      requires pos == was.live[i].list && Judged(was.live, now, gone, i)
      modifies this`book, this`liveLinks, this`freeLinks, root, root.Repr, Rings()
      ensures Valid() && next == i + 1 && book == SweptTo(was, gone, next)
      ensures Rings() == old(Rings()) && root.Repr <= old(root.Repr)
      ensures n == if next < |was.live| then was.live[next].list else liveHead
      ensures Judged(was.live, now, gone, next)
    {
      ghost var k := SweepHere(was, gone, i);
      n := pos.next;
      var c := LiveEntry(pos, k);
      next := DropNext(c, now, was, gone, i);
    }

    method DropNext(c: Connection, now: int, ghost was: Book, ghost gone: set<Connection>, ghost i: nat)
      returns (ghost next: nat)
      requires Valid() && i < |was.live| && c == was.live[i] && c in book.live && Judged(was.live, now, gone, i)
      requires SweptTo(was, gone, i + 1) == if c in gone then Retired(book, c) else book
      modifies this`book, this`liveLinks, this`freeLinks, root, root.Repr, Rings()
      ensures Valid() && next == i + 1 && book == SweptTo(was, gone, next)
      ensures Rings() == old(Rings()) && root.Repr <= old(root.Repr)
      ensures Judged(was.live, now, gone, next)
    {
      next := i + 1;
      DropOverdue(c, now);
    }

    method DropOverdue(c: Connection, now: int)
      requires Valid() && c in book.live
      modifies this`book, this`liveLinks, this`freeLinks, root, root.Repr, Rings()
      ensures Valid() && book == if old(Overdue(c, now, timeout)) then Retired(old(book), c) else old(book)
      ensures Rings() == old(Rings()) && root.Repr <= old(root.Repr)
    {
      if (c.kind == CONN_SOCKET_SERVER || c.kind == CONN_SOCKET_CLIENT) && now - c.timestamp > timeout {
        Delete(c);
      }
    }

    // connlist_checkstatus; deregistering and closing the descriptor is not modelled
    method CheckStatus(now: int)
      requires Valid()
      modifies this`book, this`liveLinks, this`freeLinks, root, root.Repr, Rings()
      ensures Valid() && book == Swept(old(book), old(OverdueLive(now)))
    {
      ghost var was, gone := book, OverdueLive(now);
      SweepStart(was, gone);
      FirstLive();
      var pos := liveHead.next;
      ghost var i := 0;
      assert forall c :: c in was.live ==> c in Elements(was.live);
      while pos != liveHead
        invariant 0 <= i <= |was.live| && Valid() && book == SweptTo(was, gone, i)
        invariant Rings() == old(Rings()) && root.Repr <= old(root.Repr)
        invariant pos == if i < |was.live| then was.live[i].list else liveHead
        invariant Judged(was.live, now, gone, i)
        decreases |was.live| - i
      {
        pos, i := SweepOne(pos, now, was, gone, i);
      }
      SweepEnd(was, gone);
    }

    ghost function OverdueLive(now: int): set<Connection>
      reads this, book.live`kind, book.live`timestamp
    {
      set c | c in book.live && Overdue(c, now, timeout)
    }

    // ---- traversal

    lemma NodesDistinct()
      requires Booked()
      ensures Distinct(NodesOf(book.byFd))
    {
      var s := book.byFd;
      forall i, j | 0 <= i < j < |s|
        ensures NodesOf(s)[i] != NodesOf(s)[j]
      {
        assert s[i] in Elements(s) && s[j] in Elements(s);
        assert Apart(s[i], s[j]);
      }
    }

    // the i-th node in order: its descriptor, and the node after it
    method Visit(n: RbNode, ghost i: nat) returns (fd: int, next: RbNode?)
      requires Valid() && i < |book.byFd| && n == NodesOf(book.byFd)[i]
      ensures fd == book.byFd[i].fd
      ensures next == if i + 1 < |book.byFd| then NodesOf(book.byFd)[i + 1] else null
    {
      NodesDistinct();
      TreeNodes();
      assert n in NodesOf(book.byFd);
      var c := RbEntry(n);
      EntryAt(c, i);
      NextOfIndex(NodesOf(book.byFd), i);
      fd := c.fd;
      next := RbNext(c.node, root);
    }

    // _connrbtree_dump: the descriptors in the order it prints them
    method Dump() returns (fds: seq<int>)
      requires Valid() && book.live != []
      ensures |fds| == |book.byFd| && forall i :: 0 <= i < |fds| ==> fds[i] == book.byFd[i].fd
    {
      assert book.live[0] in Elements(book.byFd);
      var first := RbFirst(root);
      var fd, n := Visit(first, 0);
      fds := [fd];
      while n != null
        invariant 1 <= |fds| <= |book.byFd| && forall i :: 0 <= i < |fds| ==> fds[i] == book.byFd[i].fd
        invariant n == if |fds| < |book.byFd| then NodesOf(book.byFd)[|fds|] else null
        decreases |book.byFd| - |fds|
      {
        fd, n := Visit(n, |fds|);
        fds := fds + [fd];
      }
    }

    lemma EntryAt(c: Connection, i: nat)
      requires Booked() && c in all && i < |book.byFd| && c.node == NodesOf(book.byFd)[i]
      ensures c == book.byFd[i]
    {
      assert book.byFd[i] in Elements(book.byFd);
      SameNode(book, c, book.byFd[i]);
    }
  }

  lemma RetiredLinks(b: Book, c: Connection) returns (k: nat)
    requires Sound(b) && c in b.live
    ensures k < |b.live| && Links(b.live)[k] == c.list
    ensures Links(Retired(b, c).live) == Links(b.live)[..k] + Links(b.live)[k + 1..]
    ensures Links(Retired(b, c).free) == Links(b.free) + [c.list]
  {
    k :| 0 <= k < |b.live| && b.live[k] == c;
    WithoutIndex(b.live, k);
    LinksJoin(b.live[..k], b.live[k + 1..]);
    LinksJoin(b.free, [c]);
  }

  // an entry that changes rings stays within the two of them
  lemma SpansMoved(head: ListHead, s: seq<ListHead>, k: nat, other: ListHead, o: seq<ListHead>)
    requires k < |s|
    ensures Span(head, s[..k] + s[k + 1..]) + Span(other, o + [s[k]]) == Span(head, s) + Span(other, o)
  {
    assert s == s[..k] + [s[k]] + s[k + 1..];
  }

  lemma ReusedLinks(b: Book)
    requires b.free != []
    ensures Links(b.free)[0] == b.free[0].list && Links(Reused(b).free) == Links(b.free)[1..]
  {
  }

  lemma LinksJoin(s: seq<Connection>, t: seq<Connection>)
    ensures Links(s + t) == Links(s) + Links(t)
  {
  }

  lemma {:induction false} RetiredNodes(b: Book, s: seq<Connection>, c: Connection)
    requires Sound(b) && c in Members(b) && forall d :: d in s ==> d in Members(b)
    ensures NodesOf(Without(s, c)) == Without(NodesOf(s), c.node)
  {
    if s != [] {
      assert NodesOf(s)[1..] == NodesOf(s[1..]);
      RetiredNodes(b, s[1..], c);
      if s[0] != c {
        assert Apart(s[0], c);
        assert NodesOf([s[0]] + Without(s[1..], c)) == [s[0].node] + NodesOf(Without(s[1..], c));
      }
    }
  }

  lemma SortedInsert(s: seq<Connection>, k: nat, c: Connection)
    requires SortedByFd(s) && k <= |s|
    requires forall i :: 0 <= i < k ==> s[i].fd < c.fd
    requires forall i :: k <= i < |s| ==> s[i].fd > c.fd
    ensures SortedByFd(s[..k] + [c] + s[k..])
  {
    var r := s[..k] + [c] + s[k..];
    forall i, j | 0 <= i < j < |r|
      ensures Precedes(r, i, j)
    {
      var i', j' := if i > k then i - 1 else i, if j > k then j - 1 else j;
      if i != k && j != k {
        assert Precedes(s, i', j');
      }
    }
  }

  lemma SortedTail(s: seq<Connection>)
    requires SortedByFd(s) && s != []
    ensures SortedByFd(s[1..]) && forall d :: d in s[1..] ==> s[0].fd < d.fd
  {
    forall i, j | 0 <= i < j < |s[1..]|
      ensures Precedes(s[1..], i, j)
    {
      assert Precedes(s, i + 1, j + 1);
    }
    forall d | d in s[1..]
      ensures s[0].fd < d.fd
    {
      var i :| 0 <= i < |s[1..]| && s[1..][i] == d;
      assert Precedes(s, 0, i + 1);
    }
  }

  lemma SortedCons(c: Connection, s: seq<Connection>)
    requires SortedByFd(s) && forall d :: d in s ==> c.fd < d.fd
    ensures SortedByFd([c] + s)
  {
    forall i, j | 0 <= i < j < |s| + 1
      ensures Precedes([c] + s, i, j)
    {
      assert s[j - 1] in s;
      assert i > 0 ==> Precedes(s, i - 1, j - 1);
    }
  }

  lemma {:induction false} RetiredSorted(s: seq<Connection>, c: Connection)
    requires SortedByFd(s)
    ensures SortedByFd(Without(s, c))
  {
    if s != [] {
      SortedTail(s);
      RetiredSorted(s[1..], c);
      var r := Without(s[1..], c);
      forall d | d in r ensures s[0].fd < d.fd {
        var i :| 0 <= i < |r| && r[i] == d;
        WithoutMember(s[1..], c, i);
      }
      SortedCons(s[0], r);
    }
  }

  lemma CutBefore(s: seq<RbNode>, lo: nat, k: nat)
    requires lo <= k < |s|
    ensures s[..lo] + s[lo..k] + [s[k]] == s[..k + 1]
  {
  }

  lemma CutAfter(s: seq<RbNode>, k: nat, hi: nat)
    requires k < hi <= |s|
    ensures [s[k]] + s[k + 1..hi] + s[hi..] == s[k..]
  {
  }

  // a stretch of the sorted sequence, cut at the top of the subtree that holds it
  lemma SplitInorder(t: Tree, s: seq<RbNode>, lo: nat, hi: nat) returns (k: nat)
    requires t.Node? && lo <= hi <= |s| && Inorder(t) == s[lo..hi]
    ensures lo <= k < hi && s[k] == t.ptr
    ensures Inorder(t.left) == s[lo..k] && Inorder(t.right) == s[k + 1..hi]
  {
    var n := |Inorder(t.left)|;
    k := lo + n;
    assert Inorder(t)[n] == s[lo..hi][n];
    assert Inorder(t.left) == Inorder(t)[..n] == s[lo..hi][..n];
    assert Inorder(t.right) == Inorder(t)[n + 1..] == s[lo..hi][n + 1..];
  }
}
