// The circular doubly linked lists of list.h.
module Lists {
  import opened Sequences

  class ListHead {
    var next: ListHead
    var prev: ListHead

    // INIT_LIST_HEAD
    constructor ()
      ensures next == prev == this
    {
      next, prev := this, this;
    }
  }

  // once around the circle that starts at head and runs through s
  ghost function Circle(head: ListHead, s: seq<ListHead>): seq<ListHead> {
    [head] + s + [head]
  }

  ghost function Span(head: ListHead, s: seq<ListHead>): set<ListHead> {
    {head} + set x | x in s
  }

  ghost predicate Ring(head: ListHead, s: seq<ListHead>)
    reads Span(head, s)
  {
    && head !in s && Distinct(s)
    && forall i :: 0 <= i <= |s| ==> Joined(head, s, i)
  }

  // the i-th and the next node of the circle point at each other
  ghost predicate Joined(head: ListHead, s: seq<ListHead>, i: nat)
    requires i <= |s|
    reads Span(head, s)
  {
    var a, b := Circle(head, s)[i], Circle(head, s)[i + 1];
    a.next == b && b.prev == a
  }

  method ListAdd(item: ListHead, prev: ListHead, next: ListHead)
    requires item != prev && item != next
    modifies item, prev, next
    ensures next.prev == item && prev.next == item && item.next == next && item.prev == prev
    ensures next != prev ==> prev.prev == old(prev.prev) && next.next == old(next.next)
  {
    next.prev := item;
    item.next := next;
    item.prev := prev;
    prev.next := item;
  }

  method ListAddTail(item: ListHead, head: ListHead, ghost s: seq<ListHead>)
    requires Ring(head, s) && item != head && item !in s
    modifies item, Span(head, s)
    ensures Ring(head, s + [item])
  {
    ghost var r, r' := Circle(head, s), Circle(head, s + [item]);
    assert Joined(head, s, |s|);
    ListAdd(item, head.prev, head);
    forall i | 0 <= i <= |s| + 1
      ensures Joined(head, s + [item], i)
    {
      assert i < |s| ==> old(Joined(head, s, i));
      assert i <= |s| ==> r'[i] == r[i];
    }
  }

  method ListDel(prev: ListHead, next: ListHead)
    modifies prev, next
    ensures next.prev == prev && prev.next == next
    ensures prev != next ==> prev.prev == old(prev.prev) && next.next == old(next.next)
  {
    next.prev := prev;
    prev.next := next;
  }

  method ListDelInit(entry: ListHead, ghost head: ListHead, ghost s: seq<ListHead>, ghost k: nat,
                     ghost u: seq<ListHead>)
    requires Ring(head, s) && k < |s| && s[k] == entry && u == s[..k] + s[k + 1..]
    modifies Span(head, s)
    ensures Ring(head, u)
    ensures entry.next == entry.prev == entry
  {
    ghost var r, r' := Circle(head, s), Circle(head, u);
    assert Joined(head, s, k) && Joined(head, s, k + 1);
    ListDel(entry.prev, entry.next);
    entry.next, entry.prev := entry, entry;
    forall i | 0 <= i <= |u|
      ensures Joined(head, u, i)
    {
      assert r'[i] == r[if i <= k then i else i + 1];
      assert r'[i + 1] == r[if i < k then i + 1 else i + 2];
      assert i < k ==> old(Joined(head, s, i));
      assert i > k ==> old(Joined(head, s, i + 1));
    }
  }

  // list_del_init, then list_add_tail on another list
  method ListMoveTail(entry: ListHead, ghost head: ListHead, ghost s: seq<ListHead>, ghost k: nat,
                      ghost u: seq<ListHead>, other: ListHead, ghost o: seq<ListHead>, ghost o': seq<ListHead>)
    requires Ring(head, s) && k < |s| && s[k] == entry && u == s[..k] + s[k + 1..]
    requires Ring(other, o) && Span(head, s) !! Span(other, o) && o' == o + [entry]
    modifies Span(head, s), Span(other, o)
    ensures Ring(head, u) && Ring(other, o')
  {
    ListDelInit(entry, head, s, k, u);
    assert entry !in Span(head, u) && Span(head, u) <= Span(head, s);
    assert entry in Span(head, s);
    ListAddTail(entry, other, o);
  }
}
