// rb_link_node and rb_insert_color: a red node in its slot, and the climb that repairs red on red.
module RbInsert {
  import opened RbTree
  import opened RbRotate

  // a red node whose subtree and whose surroundings are in order, except that its parent may be red
  ghost predicate RedAt(root: RbRoot, c: Ctx, t: Tree, node: RbNode)
    reads root, root.Repr
  {
    At(root, c, t) && t.Node? && t.ptr == node && t.color == Red && RB(t) && CtxRB(c, BlackHeight(t))
  }

  // parent and uncle red
  ghost function Flip(g: Tree): Tree
    requires g.Node? && g.left.Node? && g.right.Node?
  {
    g.(left := g.left.(color := Black), right := g.right.(color := Black), color := Red)
  }

  lemma FlipRB(c: Ctx, t: Tree)
    requires t.Node? && t.color == Red && RB(t) && CtxRB(c, BlackHeight(t)) && CtxRed(c) && IsRed(c.up.sib)
    ensures var g := Flip(FocusOf(c.up, FocusOf(c, t)));
      RB(g) && CtxRB(c.up.up, BlackHeight(g)) && SeqOf(c.up.up, g) == SeqOf(c, t)
  {
    var p := FocusOf(c, t);
    var g := FocusOf(c.up, p);
    ZipUpSeq(c, t);
    ZipUpSeq(c.up, p);
    assert RB(p.(color := Black)) && RB(c.up.sib.(color := Black));
    assert Inorder(g.left.(color := Black)) == Inorder(g.left);
    assert Inorder(g.right.(color := Black)) == Inorder(g.right);
    assert Inorder(Flip(g)) == Inorder(g);
  }

  // parent red, uncle black: the parent, or the node itself, becomes the black top of the three
  ghost function SpinLeft(g: Tree, inner: bool): Tree
    requires g.Node? && g.left.Node? && (inner ==> g.left.right.Node?)
  {
    var q := if inner then RotLeft(g.left) else g.left;
    RotRight(g.(left := q.(color := Black), color := Red))
  }

  lemma SpinLeftOk(c: Ctx, t: Tree)
    requires t.Node? && t.color == Red && RB(t) && CtxRB(c, BlackHeight(t)) && CtxRed(c) && c.up.InLeft? &&
      !IsRed(c.up.sib)
    ensures var r := SpinLeft(FocusOf(c.up, FocusOf(c, t)), c.InRight?);
      && RB(r.left) && IsRed(r.left) && r.color == Black
      && CtxRB(InLeft(c.up.up, r.ptr, Black, r.right), BlackHeight(r.left))
      && SeqOf(InLeft(c.up.up, r.ptr, Black, r.right), r.left) == SeqOf(c, t)
  {
    var p := FocusOf(c, t);
    var g := FocusOf(c.up, p);
    var q := if c.InRight? then RotLeft(p) else p;
    var g2 := g.(left := q.(color := Black), color := Red);
    ZipUpSeq(c, t);
    ZipUpSeq(c.up, p);
    if c.InRight? { RotLeftInorder(p); }
    assert Inorder(g2.left) == Inorder(p);
    assert Inorder(g2) == Inorder(g);
    RotRightInorder(g2);
    ZipLeftSeq(c.up.up, RotRight(g2));
  }

  // parent red, uncle black: the parent, or the node itself, becomes the black top of the three
  ghost function SpinRight(g: Tree, inner: bool): Tree
    requires g.Node? && g.right.Node? && (inner ==> g.right.left.Node?)
  {
    var q := if inner then RotRight(g.right) else g.right;
    RotLeft(g.(right := q.(color := Black), color := Red))
  }

  lemma SpinRightOk(c: Ctx, t: Tree)
    requires t.Node? && t.color == Red && RB(t) && CtxRB(c, BlackHeight(t)) && CtxRed(c) && c.up.InRight? &&
      !IsRed(c.up.sib)
    ensures var r := SpinRight(FocusOf(c.up, FocusOf(c, t)), c.InLeft?);
      && RB(r.right) && IsRed(r.right) && r.color == Black
      && CtxRB(InRight(c.up.up, r.ptr, Black, r.left), BlackHeight(r.right))
      && SeqOf(InRight(c.up.up, r.ptr, Black, r.left), r.right) == SeqOf(c, t)
  {
    var p := FocusOf(c, t);
    var g := FocusOf(c.up, p);
    var q := if c.InLeft? then RotRight(p) else p;
    var g2 := g.(right := q.(color := Black), color := Red);
    ZipUpSeq(c, t);
    ZipUpSeq(c.up, p);
    if c.InLeft? { RotRightInorder(p); }
    assert Inorder(g2.right) == Inorder(p);
    assert Inorder(g2) == Inorder(g);
    RotLeftInorder(g2);
    ZipRightSeq(c.up.up, RotLeft(g2));
  }

  method InsertStepLeft(node: RbNode, parent: RbNode, gparent: RbNode, root: RbRoot, ghost c: Ctx, ghost t: Tree)
    returns (next: RbNode, ghost c': Ctx, ghost t': Tree)
    requires RedAt(root, c, t, node) && CtxRed(c) && parent == c.ptr && gparent == ParentOf(c.up) && c.up.InLeft?
    modifies root`rbNode, root.Repr
    ensures RedAt(root, c', t', next) && Depth(c') < Depth(c)
    ensures SeqOf(c', t') == SeqOf(c, t)
  {
    ghost var p := FocusOf(c, t);
    ghost var g := FocusOf(c.up, p);
    ZipUp(root, c, t);
    ZipUp(root, c.up, p);
    var uncle := gparent.rbRight;
    if uncle != null && uncle.rbColor == Red {
      PaintRight(uncle, Black, root, c.up.up, g);
      ghost var g1 := g.(right := g.right.(color := Black));
      PaintLeft(parent, Black, root, c.up.up, g1);
      Paint(gparent, Red, root, c.up.up, g1.(left := g.left.(color := Black)));
      FlipRB(c, t);
      next, c', t' := gparent, c.up.up, Flip(g);
      return;
    }
    SpinLeftOk(c, t);
    ghost var r := SpinLeft(g, c.InRight?);
    var top := parent;
    next := node;
    ghost var q := p;
    if parent.rbRight == node {
      RotateLeft(parent, root, c.up, p);
      q := RotLeft(p);
      top, next := node, parent;
    }
    Paint(top, Black, root, c.up, q);
    ZipUp(root, c.up, q.(color := Black));
    ghost var g2 := g.(left := q.(color := Black));
    Paint(gparent, Red, root, c.up.up, g2);
    RotateRight(gparent, root, c.up.up, g2.(color := Red));
    ZipLeft(root, c.up.up, r);
    c', t' := InLeft(c.up.up, r.ptr, Black, r.right), r.left;
  }

  method InsertStepRight(node: RbNode, parent: RbNode, gparent: RbNode, root: RbRoot, ghost c: Ctx, ghost t: Tree)
    returns (next: RbNode, ghost c': Ctx, ghost t': Tree)
    requires RedAt(root, c, t, node) && CtxRed(c) && parent == c.ptr && gparent == ParentOf(c.up) && c.up.InRight?
    modifies root`rbNode, root.Repr
    ensures RedAt(root, c', t', next) && Depth(c') < Depth(c)
    ensures SeqOf(c', t') == SeqOf(c, t)
  {
    ghost var p := FocusOf(c, t);
    ghost var g := FocusOf(c.up, p);
    ZipUp(root, c, t);
    ZipUp(root, c.up, p);
    var uncle := gparent.rbLeft;
    if uncle != null && uncle.rbColor == Red {
      PaintLeft(uncle, Black, root, c.up.up, g);
      ghost var g1 := g.(left := g.left.(color := Black));
      PaintRight(parent, Black, root, c.up.up, g1);
      Paint(gparent, Red, root, c.up.up, g1.(right := g.right.(color := Black)));
      FlipRB(c, t);
      next, c', t' := gparent, c.up.up, Flip(g);
      return;
    }
    SpinRightOk(c, t);
    ghost var r := SpinRight(g, c.InLeft?);
    var top := parent;
    next := node;
    ghost var q := p;
    if parent.rbLeft == node {
      RotateRight(parent, root, c.up, p);
      q := RotRight(p);
      top, next := node, parent;
    }
    Paint(top, Black, root, c.up, q);
    ZipUp(root, c.up, q.(color := Black));
    ghost var g2 := g.(right := q.(color := Black));
    Paint(gparent, Red, root, c.up.up, g2);
    RotateLeft(gparent, root, c.up.up, g2.(color := Red));
    ZipRight(root, c.up.up, r);
    c', t' := InRight(c.up.up, r.ptr, Black, r.left), r.right;
  }

  method InsertColor(start: RbNode, root: RbRoot, ghost c0: Ctx, ghost t0: Tree) returns (ghost tree: Tree)
    requires RedAt(root, c0, t0, start)
    modifies root`rbNode, root.Repr
    ensures At(root, Top, tree) && RedBlackTree(tree)
    ensures Inorder(tree) == SeqOf(c0, t0)
  {
    var node := start;
    ghost var c, t := c0, t0;
    while node.rbParent != null && node.rbParent.rbColor == Red
      invariant RedAt(root, c, t, node) && SeqOf(c, t) == SeqOf(c0, t0)
      decreases Depth(c)
    {
      var parent := node.rbParent;
      var gparent := parent.rbParent;
      ZipUp(root, c, t);
      SideOf(root, c.up, FocusOf(c, t));
      if parent == gparent.rbLeft {
        node, c, t := InsertStepLeft(node, parent, gparent, root, c, t);
      } else {
        node, c, t := InsertStepRight(node, parent, gparent, root, c, t);
      }
    }
    PlugAt(root, c, t);
    PlugInorder(c, t);
    tree := Plug(c, t);
    if !c.Top? { PlugRB(c, t); }
    Paint(root.rbNode, Black, root, Top, tree);
    assert Inorder(tree.(color := Black)) == Inorder(tree);
    tree := tree.(color := Black);
  }

  // the new red leaf goes into an empty slot: below parent on the given side, or the root
  method RbLinkNode(node: RbNode, parent: RbNode?, onLeft: bool, root: RbRoot, ghost c: Ctx)
    requires At(root, c, Leaf) && parent == ParentOf(c) && (parent != null ==> onLeft == c.InLeft?)
    requires node !in root.Repr
    modifies root`rbNode, root`Repr, node, if parent == null then {} else {parent}
    ensures At(root, c, Node(Leaf, node, Red, Leaf)) && root.Repr == old(root.Repr) + {node}
    ensures root.tree == old(root.tree)
  {
    node.rbParent := parent;
    node.rbColor := Red;
    node.rbLeft, node.rbRight := null, null;
    if parent == null {
      root.rbNode := node;
    } else if onLeft {
      parent.rbLeft := node;
    } else {
      parent.rbRight := node;
    }
    root.Repr := root.Repr + {node};
  }

  method RbInsertColor(node: RbNode, root: RbRoot, ghost c: Ctx)
    requires At(root, c, Node(Leaf, node, Red, Leaf)) && Fits(c, Leaf)
    modifies root`rbNode, root`tree, root.Repr
    ensures root.Valid()
    ensures Inorder(root.tree) == Before(c) + [node] + After(c)
  {
    root.tree := InsertColor(node, root, c, Node(Leaf, node, Red, Leaf));
    assert Inorder(Node(Leaf, node, Red, Leaf)) == [node];
  }

  // rb_link_node, then rb_insert_color
  method RbInsertAt(node: RbNode, parent: RbNode?, onLeft: bool, root: RbRoot, ghost c: Ctx)
    requires At(root, c, Leaf) && Fits(c, Leaf) && parent == ParentOf(c) && (parent != null ==> onLeft == c.InLeft?)
    requires node !in root.Repr
    modifies root, root.Repr, node
    ensures root.Valid() && root.Repr == old(root.Repr) + {node}
    ensures Inorder(root.tree) == Before(c) + [node] + After(c)
  {
    RbLinkNode(node, parent, onLeft, root, c);
    RbInsertColor(node, root, c);
  }
}
