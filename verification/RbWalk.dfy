// rb_first, rb_last, rb_next and rb_prev, and how deep a tree can be.
module RbWalk {
  import opened Arithmetic
  import opened Sequences
  import opened RbTree

  // the neighbours of x in s
  ghost function NextIn(s: seq<RbNode>, x: RbNode): RbNode? {
    if |s| < 2 then null else if s[0] == x then s[1] else NextIn(s[1..], x)
  }

  ghost function PrevIn(s: seq<RbNode>, x: RbNode): RbNode? {
    if |s| < 2 then null
    else if s[|s| - 1] == x then s[|s| - 2]
    else PrevIn(s[..|s| - 1], x)
  }

  lemma {:induction false} NextAt(a: seq<RbNode>, x: RbNode, b: seq<RbNode>)
    requires x !in a
    ensures NextIn(a + ([x] + b), x) == if b == [] then null else b[0]
  {
    var s := a + ([x] + b);
    if a != [] {
      assert s[1..] == a[1..] + ([x] + b);
      NextAt(a[1..], x, b);
    }
  }

  lemma {:induction false} PrevAt(a: seq<RbNode>, x: RbNode, b: seq<RbNode>)
    requires x !in b
    ensures PrevIn(a + ([x] + b), x) == if a == [] then null else a[|a| - 1]
  {
    var s := a + ([x] + b);
    if b != [] {
      assert s[..|s| - 1] == a + ([x] + b[..|b| - 1]);
      PrevAt(a, x, b[..|b| - 1]);
    }
  }

  // stepping from the i-th element of a sequence without repetitions
  lemma NextOfIndex(s: seq<RbNode>, i: nat)
    requires Distinct(s) && i < |s|
    ensures NextIn(s, s[i]) == if i + 1 < |s| then s[i + 1] else null
  {
    assert s == s[..i] + ([s[i]] + s[i + 1..]);
    NextAt(s[..i], s[i], s[i + 1..]);
  }

  // going back from where a step forward led
  lemma PrevUndoesNext(s: seq<RbNode>, x: RbNode)
    requires Distinct(s) && x in s && NextIn(s, x) != null
    ensures NextIn(s, x) in s && PrevIn(s, NextIn(s, x)) == x
  {
    var i :| 0 <= i < |s| && s[i] == x;
    NextOfIndex(s, i);
    PrevOfIndex(s, i + 1);
  }

  lemma PrevOfIndex(s: seq<RbNode>, i: nat)
    requires Distinct(s) && i < |s|
    ensures PrevIn(s, s[i]) == if i > 0 then s[i - 1] else null
  {
    assert s == s[..i] + ([s[i]] + s[i + 1..]);
    PrevAt(s[..i], s[i], s[i + 1..]);
  }

  lemma NextUndoesPrev(s: seq<RbNode>, x: RbNode)
    requires Distinct(s) && x in s && PrevIn(s, x) != null
    ensures PrevIn(s, x) in s && NextIn(s, PrevIn(s, x)) == x
  {
    var i :| 0 <= i < |s| && s[i] == x;
    PrevOfIndex(s, i);
    NextOfIndex(s, i - 1);
  }

  lemma InorderNode(t: Tree, n: RbNode)
    ensures n in Inorder(t) <==> n in Nodes(t)
  {
    InorderNodes(t);
  }

  lemma {:induction false} OrderDistinct(t: Tree)
    requires Proper(t)
    ensures Distinct(Inorder(t))
  {
    if t.Node? {
      OrderDistinct(t.left);
      OrderDistinct(t.right);
      InorderNode(t.left, t.ptr);
      InorderNode(t.right, t.ptr);
      forall y | y in Inorder(t.left)
        ensures y !in Inorder(t.right)
      {
        InorderNode(t.left, y);
        InorderNode(t.right, y);
      }
      DistinctJoin(Inorder(t.left), t.ptr, Inorder(t.right));
    }
  }

  lemma DistinctJoin(a: seq<RbNode>, x: RbNode, b: seq<RbNode>)
    requires Distinct(a) && Distinct(b) && x !in a && x !in b && forall y :: y in a ==> y !in b
    ensures Distinct(a + [x] + b)
  {
    var s := a + [x] + b;
    forall i, j | 0 <= i < j < |s|
      ensures s[i] != s[j]
    {
      assert i < |a| ==> s[i] in a;
      assert j > |a| ==> s[j] in b;
    }
  }

  // in a valid tree rb_prev leads back from where rb_next led, and the other way round
  lemma WalksBothWays(root: RbRoot, x: RbNode)
    requires root.Valid() && x in root.Repr
    ensures var s := Inorder(root.tree);
      && (NextIn(s, x) != null ==> NextIn(s, x) in root.Repr && PrevIn(s, NextIn(s, x)) == x)
      && (PrevIn(s, x) != null ==> PrevIn(s, x) in root.Repr && NextIn(s, PrevIn(s, x)) == x)
  {
    var s := Inorder(root.tree);
    OrderDistinct(root.tree);
    InorderNodes(root.tree);
    if NextIn(s, x) != null { PrevUndoesNext(s, x); }
    if PrevIn(s, x) != null { NextUndoesPrev(s, x); }
  }

  ghost predicate AllRight(c: Ctx) {
    c.Top? || (c.InRight? && AllRight(c.up))
  }

  lemma {:induction false} NothingAfter(c: Ctx)
    requires AllRight(c)
    ensures After(c) == []
  {
    if !c.Top? { NothingAfter(c.up); }
  }

  lemma RightmostLast(inner: Ctx, s: Tree)
    requires AllRight(inner) && s.Node? && s.right.Leaf?
    ensures Inorder(Plug(inner, s)) == Inorder(Plug(inner, s.left)) + [s.ptr]
  {
    NothingAfter(inner);
    PlugInorder(inner, s);
    PlugInorder(inner, s.left);
    assert Inorder(s) == Inorder(s.left) + [s.ptr];
    Assoc(Before(inner), Inorder(s.left), [s.ptr]);
  }

  method RbFirst(root: RbRoot) returns (n: RbNode?)
    requires root.Valid()
    ensures var s := Inorder(root.tree); n == if s == [] then null else s[0]
  {
    n := root.rbNode;
    if n == null {
      return;
    }
    ghost var inner, s := Top, root.tree;
    TopSeq(s);
    while n.rbLeft != null
      invariant At(root, inner, s) && s.Node? && n == s.ptr
      invariant AllLeft(inner) && SeqOf(inner, s) == Inorder(root.tree)
      decreases s
    {
      ZipLeft(root, inner, s);
      ZipLeftSeq(inner, s);
      n := n.rbLeft;
      inner, s := InLeft(inner, s.ptr, s.color, s.right), s.left;
    }
    NothingBefore(inner);
  }

  method RbLast(root: RbRoot) returns (n: RbNode?)
    requires root.Valid()
    ensures var s := Inorder(root.tree); n == if s == [] then null else s[|s| - 1]
  {
    n := root.rbNode;
    if n == null {
      return;
    }
    ghost var inner, s := Top, root.tree;
    TopSeq(s);
    while n.rbRight != null
      invariant At(root, inner, s) && s.Node? && n == s.ptr
      invariant AllRight(inner) && SeqOf(inner, s) == Inorder(root.tree)
      decreases s
    {
      ZipRight(root, inner, s);
      ZipRightSeq(inner, s);
      n := n.rbRight;
      inner, s := InRight(inner, s.ptr, s.color, s.left), s.right;
    }
    NothingAfter(inner);
  }

  method RbNext(start: RbNode, ghost root: RbRoot) returns (n: RbNode?)
    requires root.Valid() && start in root.Repr
    ensures n == NextIn(Inorder(root.tree), start)
  {
    ghost var c, t := Focus(root, start);
    AroundNext(root, c, t);
    assert Linked(t, ParentOf(c));
    if start.rbRight != null {
      n := DownLeft(start, root, c, t);
    } else {
      n := UpFromRight(start, root, c, t);
    }
  }

  // what follows the node at the top of t
  lemma AroundNext(root: RbRoot, c: Ctx, t: Tree)
    requires At(root, c, t) && t.Node? && SeqOf(c, t) == Inorder(root.tree)
    ensures var after := Inorder(t.right) + After(c);
      NextIn(Inorder(root.tree), t.ptr) == if after == [] then null else after[0]
  {
    InorderNodes(t.left);
    AroundNodes(c);
    assert t.ptr in Nodes(t);
    Assoc(Before(c), Inorder(t.left) + [t.ptr] + Inorder(t.right), After(c));
    Assoc(Inorder(t.left) + [t.ptr], Inorder(t.right), After(c));
    Assoc(Inorder(t.left), [t.ptr], Inorder(t.right) + After(c));
    Assoc(Before(c), Inorder(t.left), [t.ptr] + (Inorder(t.right) + After(c)));
    Assoc(Before(c) + Inorder(t.left), [t.ptr], Inorder(t.right) + After(c));
    NextAt(Before(c) + Inorder(t.left), t.ptr, Inorder(t.right) + After(c));
  }

  method DownLeft(start: RbNode, ghost root: RbRoot, ghost c: Ctx, ghost t: Tree) returns (n: RbNode)
    requires At(root, c, t) && t.Node? && t.ptr == start && t.right.Node?
    ensures |Inorder(t.right)| > 0 && n == Inorder(t.right)[0]
  {
    ghost var outer := InRight(c, t.ptr, t.color, t.left);
    ghost var inner, s := Top, t.right;
    ZipRight(root, c, t);
    n := start.rbRight;
    while n.rbLeft != null
      invariant At(root, Append(inner, outer), s) && s.Node? && n == s.ptr
      invariant AllLeft(inner) && Plug(inner, s) == t.right
      decreases s
    {
      ZipLeft(root, Append(inner, outer), s);
      n := n.rbLeft;
      inner, s := InLeft(inner, s.ptr, s.color, s.right), s.left;
    }
    LeftmostFirst(inner, s);
  }

  method UpFromRight(start: RbNode, ghost root: RbRoot, ghost c: Ctx, ghost t: Tree) returns (n: RbNode?)
    requires At(root, c, t) && t.Node? && t.ptr == start
    ensures n == if After(c) == [] then null else After(c)[0]
  {
    var node := start;
    ghost var d, s := c, t;
    if !d.Top? { SideOf(root, d, s); }
    while node.rbParent != null && node == node.rbParent.rbRight
      invariant At(root, d, s) && s.Node? && node == s.ptr && After(d) == After(c)
      invariant !d.Top? ==> (node == d.ptr.rbRight <==> d.InRight?)
      decreases Depth(d)
    {
      ZipUp(root, d, s);
      node := node.rbParent;
      d, s := d.up, FocusOf(d, s);
      if !d.Top? { SideOf(root, d, s); }
    }
    n := node.rbParent;
  }

  method RbPrev(start: RbNode, ghost root: RbRoot) returns (n: RbNode?)
    requires root.Valid() && start in root.Repr
    ensures n == PrevIn(Inorder(root.tree), start)
  {
    ghost var c, t := Focus(root, start);
    AroundPrev(root, c, t);
    assert Linked(t, ParentOf(c));
    if start.rbLeft != null {
      n := DownRight(start, root, c, t);
    } else {
      n := UpFromLeft(start, root, c, t);
    }
  }

  // what precedes the node at the top of t
  lemma AroundPrev(root: RbRoot, c: Ctx, t: Tree)
    requires At(root, c, t) && t.Node? && SeqOf(c, t) == Inorder(root.tree)
    ensures var before := Before(c) + Inorder(t.left);
      PrevIn(Inorder(root.tree), t.ptr) == if before == [] then null else before[|before| - 1]
  {
    InorderNodes(t.right);
    AroundNodes(c);
    assert t.ptr in Nodes(t);
    Assoc(Before(c), Inorder(t.left) + [t.ptr] + Inorder(t.right), After(c));
    Assoc(Inorder(t.left) + [t.ptr], Inorder(t.right), After(c));
    Assoc(Inorder(t.left), [t.ptr], Inorder(t.right) + After(c));
    Assoc(Before(c), Inorder(t.left), [t.ptr] + (Inorder(t.right) + After(c)));
    Assoc(Before(c) + Inorder(t.left), [t.ptr], Inorder(t.right) + After(c));
    PrevAt(Before(c) + Inorder(t.left), t.ptr, Inorder(t.right) + After(c));
  }

  method DownRight(start: RbNode, ghost root: RbRoot, ghost c: Ctx, ghost t: Tree) returns (n: RbNode)
    requires At(root, c, t) && t.Node? && t.ptr == start && t.left.Node?
    ensures |Inorder(t.left)| > 0 && n == Inorder(t.left)[|Inorder(t.left)| - 1]
  {
    ghost var outer := InLeft(c, t.ptr, t.color, t.right);
    ghost var inner, s := Top, t.left;
    ZipLeft(root, c, t);
    n := start.rbLeft;
    while n.rbRight != null
      invariant At(root, Append(inner, outer), s) && s.Node? && n == s.ptr
      invariant AllRight(inner) && Plug(inner, s) == t.left
      decreases s
    {
      ZipRight(root, Append(inner, outer), s);
      n := n.rbRight;
      inner, s := InRight(inner, s.ptr, s.color, s.left), s.right;
    }
    RightmostLast(inner, s);
  }

  method UpFromLeft(start: RbNode, ghost root: RbRoot, ghost c: Ctx, ghost t: Tree) returns (n: RbNode?)
    requires At(root, c, t) && t.Node? && t.ptr == start
    ensures n == if Before(c) == [] then null else Before(c)[|Before(c)| - 1]
  {
    var node := start;
    ghost var d, s := c, t;
    if !d.Top? { SideOf(root, d, s); }
    while node.rbParent != null && node == node.rbParent.rbLeft
      invariant At(root, d, s) && s.Node? && node == s.ptr && Before(d) == Before(c)
      invariant !d.Top? ==> (node == d.ptr.rbLeft <==> d.InLeft?)
      decreases Depth(d)
    {
      ZipUp(root, d, s);
      node := node.rbParent;
      d, s := d.up, FocusOf(d, s);
      if !d.Top? { SideOf(root, d, s); }
    }
    n := node.rbParent;
  }

  // ---- how deep a search can go

  ghost function Height(t: Tree): nat {
    if t.Leaf? then 0 else 1 + if Height(t.left) < Height(t.right) then Height(t.right) else Height(t.left)
  }

  lemma {:induction false} HeightBound(t: Tree)
    requires RB(t)
    ensures Height(t) <= 2 * BlackHeight(t) + if IsRed(t) then 1 else 0
  {
    if t.Node? { HeightBound(t.left); HeightBound(t.right); }
  }

  lemma {:induction false} SizeBound(t: Tree)
    requires RB(t)
    ensures Pow2(BlackHeight(t)) <= |Inorder(t)| + 1
  {
    if t.Node? { SizeBound(t.left); SizeBound(t.right); }
  }

  lemma {:induction false} DepthBound(c: Ctx, t: Tree)
    ensures Depth(c) + Height(t) <= Height(Plug(c, t))
  {
    if !c.Top? { DepthBound(c.up, FocusOf(c, t)); }
  }

  // a path of h nodes from the root of a tree of n nodes
  lemma LogarithmicPath(tree: Tree, c: Ctx, t: Tree, h: nat)
    requires RedBlackTree(tree) && Plug(c, t) == tree
    requires h <= Depth(c) + if t.Node? then 1 else 0
    ensures Pow2((h + 1) / 2) <= |Inorder(tree)| + 1
  {
    DepthBound(c, t);
    HeightBound(tree);
    SizeBound(tree);
    Pow2Grows((h + 1) / 2, BlackHeight(tree));
  }
}
