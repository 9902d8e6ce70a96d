// rb_erase: a node with at most one child is unlinked, one with two gives its place to its successor.
module RbErasure {
  import opened Sequences
  import opened RbTree
  import opened RbRotate
  import opened RbRebalance

  // taking the node at the top of t out of the whole sequence
  lemma CutNode(c: Ctx, t: Tree)
    requires Proper(t) && Nodes(t) !! CtxNodes(c) && t.Node?
    ensures Without(SeqOf(c, t), t.ptr) == Before(c) + (Inorder(t.left) + Inorder(t.right)) + After(c)
  {
    InorderNodes(t.left);
    InorderNodes(t.right);
    AroundNodes(c);
    assert t.ptr in Nodes(t);
    WithoutMiddle(Before(c), Inorder(t.left), t.ptr, Inorder(t.right), After(c));
  }

  lemma CutSingle(c: Ctx, t: Tree, ct: Tree)
    requires Proper(t) && Nodes(t) !! CtxNodes(c) && t.Node?
    requires (t.left.Leaf? && ct == t.right) || (t.right.Leaf? && ct == t.left)
    ensures Without(SeqOf(c, t), t.ptr) == SeqOf(c, ct)
  {
    CutNode(c, t);
    assert Inorder(t.left) + Inorder(t.right) == Inorder(ct);
  }

  lemma InorderJoin(l: Tree, p: RbNode, color: Color, r: Tree)
    ensures Inorder(Node(l, p, color, r)) == Inorder(l) + ([p] + Inorder(r))
  {
    Assoc(Inorder(l), [p], Inorder(r));
  }

  // the successor, found by going left from the right child, takes the place of the node at the top of t
  lemma CutDouble(c: Ctx, t: Tree, inner: Ctx, s: Tree)
    requires Proper(t) && Nodes(t) !! CtxNodes(c) && t.Node? && t.right == Plug(inner, s)
    requires AllLeft(inner) && s.Node? && s.left.Leaf?
    ensures Without(SeqOf(c, t), t.ptr) == SeqOf(Append(inner, InRight(c, s.ptr, t.color, t.left)), s.right)
  {
    var rest := Plug(inner, s.right);
    CutNode(c, t);
    LeftmostFirst(inner, s);
    InorderJoin(t.left, s.ptr, t.color, rest);
    AppendSeq(inner, InRight(c, s.ptr, t.color, t.left), s.right);
    ZipRightSeq(c, Node(t.left, s.ptr, t.color, rest));
  }

  // black-height demands do not look at the nodes themselves
  lemma {:induction false} CtxRBIgnoresNodes(inner: Ctx, up: Ctx, color: Color, sib: Tree, m: RbNode, n: RbNode, h: nat)
    requires CtxRB(Append(inner, InRight(up, m, color, sib)), h)
    ensures CtxRB(Append(inner, InRight(up, n, color, sib)), h)
  {
    if !inner.Top? {
      CtxRBIgnoresNodes(inner.up, up, color, sib, m, n, h + if inner.color == Black then 1 else 0);
    }
  }

  // node has at most one child, which takes its place
  method Unlink(node: RbNode, child: RbNode?, root: RbRoot, ghost c: Ctx, ghost t: Tree, ghost ct: Tree)
    requires At(root, c, t) && t.Node? && t.ptr == node && child == PtrOf(ct)
    requires (t.left.Leaf? && ct == t.right) || (t.right.Leaf? && ct == t.left)
    modifies root`rbNode, root`Repr, root.Repr
    ensures At(root, c, ct) && root.Repr == old(root.Repr) - {node}
    ensures unchanged(node)
  {
    var parent := node.rbParent;
    assert Linked(ct, node);
    SetParent(child, parent, node, ct);
    ReplaceChild(root, parent, node, child, c);
    root.Repr := root.Repr - {node};
    assert Nodes(t) == Nodes(ct) + {node};
  }

  // the children of the node just replaced hang below node
  method Adopt(node: RbNode, was: RbNode, ghost t: Tree, ghost repr: set<RbNode>)
    requires Proper(t) && t.Node? && Nodes(t) <= repr && node !in Nodes(t) && t.left.Node?
    requires Linked(t.left, was) && Linked(t.right, was)
    requires was.rbLeft == PtrOf(t.left) && was.rbRight == PtrOf(t.right) && was == t.ptr
    modifies {t.left.ptr} + if t.right.Leaf? then {} else {t.right.ptr}
    ensures Linked(t.left, node) && Linked(t.right, node)
  {
    SetParent(was.rbLeft, node, was, t.left);
    SetParent(was.rbRight, node, was, t.right);
  }

  lemma SubstituteShape(t: Tree, node: RbNode)
    requires Proper(t) && t.Node? && node !in Nodes(t)
    ensures Proper(t.(ptr := node)) && Nodes(t.(ptr := node)) == Nodes(t) - {t.ptr} + {node}
    ensures Nodes(t) == Nodes(t.left) + {t.ptr} + Nodes(t.right)
    ensures t.ptr !in Nodes(t.left) && t.ptr !in Nodes(t.right)
  {
  }

  // node takes over the links and colour of was, and its slot
  method TakeSlot(node: RbNode, was: RbNode, root: RbRoot, ghost c: Ctx, ghost t: Tree)
    requires At(root, c, t) && t.Node? && t.ptr == was && node !in root.Repr
    modifies root`rbNode, node, if was.rbParent == null then {} else {was.rbParent}
    ensures CtxLinked(c, root, node) && Linked(t.left, was) && Linked(t.right, was)
    ensures node.rbParent == was.rbParent && node.rbColor == was.rbColor
    ensures node.rbLeft == was.rbLeft && node.rbRight == was.rbRight
    ensures unchanged(was)
  {
    SubstituteShape(t, node);
    node.rbParent, node.rbColor := was.rbParent, was.rbColor;
    node.rbRight, node.rbLeft := was.rbRight, was.rbLeft;
    ReplaceChild(root, was.rbParent, was, node, c);
  }

  method Substitute(node: RbNode, was: RbNode, root: RbRoot, ghost c: Ctx, ghost t: Tree)
    requires At(root, c, t) && t.Node? && t.left.Node? && t.ptr == was && node !in root.Repr
    modifies root`rbNode, root`Repr, root.Repr, node
    ensures At(root, c, t.(ptr := node)) && root.Repr == old(root.Repr) - {was} + {node}
  {
    SubstituteShape(t, node);
    assert Linked(t, ParentOf(c));
    TakeSlot(node, was, root, c, t);
    Adopt(node, was, t, root.Repr);
    assert CtxLinked(c, root, node);
    root.Repr := root.Repr - {was} + {node};
  }

  // what is left to repair once a node of the given colour has gone
  ghost predicate Removed(root: RbRoot, c: Ctx, t: Tree, color: Color)
    reads root, root.Repr
  {
    && At(root, c, t) && RB(t) && CtxRB(c, BlackHeight(t) + if color == Black then 1 else 0)
    && (color == Red ==> !IsRed(t))
  }

  ghost function FrameOf(c: Ctx, t: Tree, n: RbNode): Ctx
    requires t.Node?
  {
    InRight(c, n, t.color, t.left)
  }

  // s is the leftmost subtree on the way down (inner) from the right child of the top of t
  ghost predicate Descent(c: Ctx, t: Tree, inner: Ctx, s: Tree) {
    && t.Node? && Proper(t) && Nodes(t) !! CtxNodes(c)
    && s.Node? && s.left.Leaf? && AllLeft(inner) && t.right == Plug(inner, s)
    && Fits(Append(inner, FrameOf(c, t, t.ptr)), s)
  }

  lemma {:induction false} OuterInside(inner: Ctx, outer: Ctx)
    requires !outer.Top?
    ensures outer.ptr in CtxNodes(Append(inner, outer))
  {
    if !inner.Top? { OuterInside(inner.up, outer); }
  }

  // down to the leftmost node below the right child of was
  method SuccessorBelow(was: RbNode, root: RbRoot, ghost c: Ctx, ghost t: Tree)
    returns (node: RbNode, ghost inner: Ctx, ghost s: Tree)
    requires At(root, c, t) && t.Node? && t.ptr == was && t.right.Node? && Fits(c, t)
    ensures Descent(c, t, inner, s) && node == s.ptr
    ensures At(root, Append(inner, FrameOf(c, t, was)), s)
    ensures node.rbColor == s.color && node.rbRight == PtrOf(s.right)
    ensures node.rbParent == if inner.Top? then was else inner.ptr
    ensures !inner.Top? ==> inner.ptr != was
  {
    ghost var frame := FrameOf(c, t, was);
    inner, s := Top, t.right;
    ZipRight(root, c, t);
    node := was.rbRight;
    while node.rbLeft != null
      invariant At(root, Append(inner, frame), s) && s.Node? && node == s.ptr
      invariant AllLeft(inner) && Plug(inner, s) == t.right
      invariant Fits(Append(inner, frame), s)
      decreases s
    {
      ZipLeft(root, Append(inner, frame), s);
      node := node.rbLeft;
      inner, s := InLeft(inner, s.ptr, s.color, s.right), s.left;
    }
    if !inner.Top? { OuterInside(inner.up, frame); }
  }

  // the successor of was leaves its own slot
  method SpliceOut(was: RbNode, root: RbRoot, ghost c: Ctx, ghost t: Tree)
    returns (node: RbNode, child: RbNode?, parent: RbNode, color: Color, ghost inner: Ctx, ghost s: Tree)
    requires At(root, c, t) && t.Node? && t.ptr == was && t.right.Node? && Fits(c, t)
    modifies root`rbNode, root`Repr, root.Repr
    ensures Descent(c, t, inner, s) && node == s.ptr && color == s.color
    ensures At(root, Append(inner, FrameOf(c, t, was)), s.right)
    ensures child == PtrOf(s.right) && parent == if inner.Top? then node else inner.ptr
    ensures node in old(root.Repr) && node != was && root.Repr == old(root.Repr) - {node}
  {
    node, inner, s := SuccessorBelow(was, root, c, t);
    child, parent, color := node.rbRight, node.rbParent, node.rbColor;
    OuterInside(inner, FrameOf(c, t, was));
    assert node in Nodes(s);
    Unlink(node, child, root, Append(inner, FrameOf(c, t, was)), s, s.right);
    if node.rbParent == was {
      parent := node;
    }
  }

  lemma SpliceShape(c: Ctx, t: Tree, inner: Ctx, s: Tree)
    requires Descent(c, t, inner, s)
    ensures var c' := Append(inner, FrameOf(c, t, s.ptr));
      && RB(s.right) && CtxRB(c', BlackHeight(s.right) + if s.color == Black then 1 else 0)
      && (s.color == Red ==> !IsRed(s.right))
      && SeqOf(c', s.right) == Without(SeqOf(c, t), t.ptr)
  {
    CtxRBIgnoresNodes(inner, c, t.color, t.left, t.ptr, s.ptr, BlackHeight(s));
    CutDouble(c, t, inner, s);
  }

  // back to the hole the successor left, below its new place
  lemma SpliceAt(root: RbRoot, node: RbNode, c: Ctx, t: Tree, inner: Ctx, rest: Tree)
    requires t.Node? && At(root, c, t.(ptr := node, right := Plug(inner, rest)))
    ensures At(root, Append(inner, FrameOf(c, t, node)), rest)
  {
    ZipRight(root, c, t.(ptr := node, right := Plug(inner, rest)));
    UnplugAt(root, inner, FrameOf(c, t, node), rest);
  }

  lemma SpliceOk(root: RbRoot, node: RbNode, c: Ctx, t: Tree, inner: Ctx, s: Tree)
    requires Descent(c, t, inner, s) && node == s.ptr
    requires At(root, c, t.(ptr := node, right := Plug(inner, s.right)))
    ensures var c' := Append(inner, FrameOf(c, t, node));
      Removed(root, c', s.right, s.color) && SeqOf(c', s.right) == Without(SeqOf(c, t), t.ptr)
  {
    SpliceAt(root, node, c, t, inner, s.right);
    SpliceShape(c, t, inner, s);
  }

  // the successor, already unlinked, replaces was in the tree
  method EraseSplice(node: RbNode, was: RbNode, root: RbRoot, ghost c: Ctx, ghost t: Tree, ghost rest: Tree,
                     ghost inner: Ctx)
    requires t.Node? && t.ptr == was && t.left.Node? && node !in root.Repr
    requires At(root, Append(inner, FrameOf(c, t, was)), rest)
    modifies root`rbNode, root`Repr, root.Repr, node
    ensures At(root, c, t.(ptr := node, right := Plug(inner, rest)))
    ensures root.Repr == old(root.Repr) - {t.ptr} + {node}
  {
    ghost var frame := FrameOf(c, t, was);
    AppendPlugAt(root, inner, frame, rest);
    ZipUp(root, frame, Plug(inner, rest));
    ghost var u := t.(right := Plug(inner, rest));
    Substitute(node, was, root, c, u);
  }

  lemma SwapOut(r: set<RbNode>, n: RbNode, w: RbNode)
    requires n in r && n != w
    ensures r - {n} - {w} + {n} == r - {w}
  {
  }

  // node has two children: its successor, which has no left child, is spliced out and takes its place
  method EraseInner(was: RbNode, root: RbRoot, ghost c: Ctx, ghost t: Tree)
    returns (child: RbNode?, parent: RbNode?, color: Color, ghost c': Ctx, ghost t': Tree)
    requires At(root, c, t) && t.Node? && t.ptr == was && t.left.Node? && t.right.Node? && Fits(c, t)
    modifies root`rbNode, root`Repr, root.Repr
    ensures Removed(root, c', t', color) && child == PtrOf(t') && parent == ParentOf(c')
    ensures SeqOf(c', t') == Without(SeqOf(c, t), was) && root.Repr == old(root.Repr) - {was}
  {
    var node;
    ghost var inner, s;
    node, child, parent, color, inner, s := SpliceOut(was, root, c, t);
    SwapOut(old(root.Repr), node, was);
    EraseSplice(node, was, root, c, t, s.right, inner);
    SpliceOk(root, node, c, t, inner, s);
    c', t' := Append(inner, FrameOf(c, t, node)), s.right;
  }

  // node has at most one child, which takes its place
  method EraseOuter(node: RbNode, root: RbRoot, ghost c: Ctx, ghost t: Tree)
    returns (child: RbNode?, parent: RbNode?, color: Color, ghost c': Ctx, ghost t': Tree)
    requires At(root, c, t) && t.Node? && t.ptr == node && (t.left.Leaf? || t.right.Leaf?) && Fits(c, t)
    modifies root`rbNode, root`Repr, root.Repr
    ensures Removed(root, c', t', color) && child == PtrOf(t') && parent == ParentOf(c')
    ensures SeqOf(c', t') == Without(SeqOf(c, t), node) && root.Repr == old(root.Repr) - {node}
  {
    assert Linked(t, ParentOf(c));
    child := if node.rbLeft == null then node.rbRight else node.rbLeft;
    parent, color := node.rbParent, node.rbColor;
    c', t' := c, if t.left.Leaf? then t.right else t.left;
    CutSingle(c, t, t');
    Unlink(node, child, root, c, t, t');
  }

  method EraseRepair(child: RbNode?, parent: RbNode?, color: Color, root: RbRoot, ghost c: Ctx, ghost t: Tree)
    returns (ghost tree: Tree)
    requires Removed(root, c, t, color) && child == PtrOf(t) && parent == ParentOf(c)
    modifies root`rbNode, root.Repr
    ensures At(root, Top, tree) && RedBlackTree(tree) && Inorder(tree) == SeqOf(c, t)
  {
    if color == Black {
      assert RB(Blacken(t));
      tree := EraseColor(child, parent, root, c, t);
    } else {
      PlugAt(root, c, t);
      PlugInorder(c, t);
      PlugRB(c, t);
      tree := Plug(c, t);
    }
  }

  method RbErase(node: RbNode, root: RbRoot)
    requires root.Valid() && node in root.Repr
    modifies root, root.Repr
    ensures root.Valid() && root.Repr == old(root.Repr) - {node}
    ensures Inorder(root.tree) == Without(old(Inorder(root.tree)), node)
  {
    ghost var c, t := Focus(root, node);
    ghost var c', t';
    var child, parent, color;
    assert Linked(t, ParentOf(c));
    if node.rbLeft != null && node.rbRight != null {
      child, parent, color, c', t' := EraseInner(node, root, c, t);
    } else {
      child, parent, color, c', t' := EraseOuter(node, root, c, t);
    }
    root.tree := EraseRepair(child, parent, color, root, c', t');
  }
}
