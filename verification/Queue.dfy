// The linked message queue of queue.c.
module Queue {
  import opened Bytes
  import opened Sequences

  class QueueNode {
    const data: seq<byte>
    var ptr: QueueNode?

    constructor (data: seq<byte>, ptr: QueueNode?)
      ensures this.data == data && this.ptr == ptr
    {
      this.data, this.ptr := data, ptr;
    }
  }

  ghost function Messages(nodes: seq<QueueNode>): (m: seq<seq<byte>>)
    ensures |m| == |nodes|
  {
    if nodes == [] then [] else [nodes[0].data] + Messages(nodes[1..])
  }

  lemma {:induction false} MessagesAppend(nodes: seq<QueueNode>, node: QueueNode)
    ensures Messages(nodes + [node]) == Messages(nodes) + [node.data]
  {
    if nodes != [] {
      MessagesAppend(nodes[1..], node);
      assert (nodes + [node])[1..] == nodes[1..] + [node];
    }
  }

  function First(nodes: seq<QueueNode>): QueueNode? {
    if nodes == [] then null else nodes[0]
  }

  // every node points to the next, and the last one to end
  ghost predicate Chained(nodes: seq<QueueNode>, end: QueueNode?)
    reads nodes
  {
    nodes == []
    || (nodes[0].ptr == (if nodes[1..] == [] then end else nodes[1]) && Chained(nodes[1..], end))
  }

  lemma {:induction false} ChainedAppend(nodes: seq<QueueNode>, node: QueueNode)
    requires Chained(nodes, node) && node.ptr == null
    ensures Chained(nodes + [node], null)
  {
    if nodes != [] {
      assert (nodes + [node])[1..] == nodes[1..] + [node];
      ChainedAppend(nodes[1..], node);
    } else {
      assert [node][1..] == [];
    }
  }

  ghost predicate LinkAt(nodes: seq<QueueNode>, end: QueueNode?, i: nat)
    requires i < |nodes|
    reads nodes
  {
    nodes[i].ptr == if i + 1 < |nodes| then nodes[i + 1] else end
  }

  lemma {:induction false} ChainedLinks(nodes: seq<QueueNode>, end: QueueNode?, i: nat)
    requires Chained(nodes, end) && i < |nodes|
    ensures LinkAt(nodes, end, i)
  {
    if i > 0 {
      ChainedLinks(nodes[1..], end, i - 1);
    }
  }

  lemma {:induction false} LinksChained(nodes: seq<QueueNode>, end: QueueNode?)
    requires forall i :: 0 <= i < |nodes| ==> LinkAt(nodes, end, i)
    ensures Chained(nodes, end)
  {
    if nodes != [] {
      forall i | 0 <= i < |nodes[1..]| ensures LinkAt(nodes[1..], end, i) {
        assert LinkAt(nodes, end, i + 1);
      }
      assert LinkAt(nodes, end, 0);
      LinksChained(nodes[1..], end);
    }
  }

  // what llq_add does to the messages of a queue
  function Linked<T>(list: seq<T>, x: T, prio: bool): seq<T> {
    if prio then [x] + list else list + [x]
  }

  class Llq {
    var head: QueueNode?
    var tail: QueueNode?
    var temp: QueueNode?
    ghost var nodes: seq<QueueNode>

    ghost predicate Valid()
      reads this, nodes
    {
      Distinct(nodes) && Chained(nodes, null) && head == First(nodes)
      && tail == (if nodes == [] then null else nodes[|nodes| - 1])
    }

    ghost function Contents(): seq<seq<byte>>
      reads this`nodes
    {
      Messages(nodes)
    }

    constructor ()
      ensures Valid() && Contents() == []
    {
      head, tail, temp, nodes := null, null, null, [];
    }

    method AddToHead(data: seq<byte>)
      requires Valid()
      modifies this
      ensures Valid() && Contents() == [data] + old(Contents())
      ensures fresh(set n | n in nodes && n !in old(nodes))
    {
      if head == null {
        var node := new QueueNode(data, null);
        head := node;
        tail := head;
        nodes := [node];
      } else {
        temp := new QueueNode(data, head);
        assert ([temp] + nodes)[1..] == nodes;
        nodes := [temp] + nodes;
        head := temp;
      }
    }

    method AddToTail(data: seq<byte>)
      requires Valid()
      modifies this, nodes
      ensures Valid() && Contents() == old(Contents()) + [data]
      ensures fresh(set n | n in nodes && n !in old(nodes))
    {
      if tail == null {
        var node := new QueueNode(data, null);
        tail := node;
        head := tail;
        nodes := [node];
      } else {
        temp := new QueueNode(data, null);
        MessagesAppend(nodes, temp);
        ghost var was := nodes;
        forall i | 0 <= i < |was| ensures was[i].ptr == if i + 1 < |was| then was[i + 1] else null {
          ChainedLinks(was, null, i);
        }
        tail.ptr := temp;
        forall i | 0 <= i < |was| ensures LinkAt(was, temp, i) {
          assert i + 1 < |was| ==> was[i] != tail;
        }
        LinksChained(nodes, temp);
        ChainedAppend(nodes, temp);
        nodes := nodes + [temp];
        tail := temp;
      }
    }

    // the part of llq_timedreceive under the access semaphore
    method Dequeue() returns (buffer: seq<byte>)
      requires Valid() && head != null
      modifies this
      ensures Valid() && old(Contents()) == [buffer] + Contents()
      ensures nodes == old(nodes)[1..]
    {
      temp := head.ptr;
      buffer := head.data;
      nodes := nodes[1..];
      if temp != null {
        head := temp;
      } else {
        head := null;
        tail := null;
      }
    }

    // the part of llq_add under the access semaphore
    method Add(buffer: seq<byte>, prio: bool)
      requires Valid()
      modifies this, nodes
      ensures Valid() && Contents() == Linked(old(Contents()), buffer, prio)
      ensures prio ==> Contents() == [buffer] + old(Contents())
      ensures !prio ==> Contents() == old(Contents()) + [buffer]
      ensures fresh(set n | n in nodes && n !in old(nodes))
    {
      if prio {
        AddToHead(buffer);
      } else {
        AddToTail(buffer);
      }
    }
  }
}
