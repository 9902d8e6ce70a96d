// __rb_erase_color: the climb that repairs a subtree one black node short, on either side.
module RbRebalance {
  import opened RbTree
  import opened RbRotate

  ghost function Blacken(t: Tree): Tree {
    if t.Leaf? then Leaf else t.(color := Black)
  }

  // a subtree one black node short of what its surroundings ask for; a red top makes up for it
  ghost predicate ShortAt(root: RbRoot, c: Ctx, t: Tree)
    reads root, root.Repr
  {
    At(root, c, t) && RB(Blacken(t)) && CtxRB(c, BlackHeight(t) + 1)
  }

  ghost function Shortfall(c: Ctx, t: Tree): nat {
    if IsRed(t) then 0 else 1 + Depth(c)
  }

  // the loop ends at a red node or at the root
  lemma FinishOk(root: RbRoot, c: Ctx, t: Tree)
    requires ShortAt(root, c, t) && (IsRed(t) || PtrOf(t) == root.rbNode)
    ensures RedBlackTree(Plug(c, Blacken(t))) && Inorder(Plug(c, Blacken(t))) == SeqOf(c, t)
  {
    assert Inorder(Blacken(t)) == Inorder(t);
    PlugInorder(c, Blacken(t));
    if !c.Top? {
      PlugAt(root, c, t);
      assert c.ptr in root.Repr;
      PlugRB(c, Blacken(t));
    }
  }

  lemma SlotOf(root: RbRoot, c: Ctx, t: Tree)
    requires At(root, c, t) && !c.Top? && c.sib.Node?
    ensures c.InLeft? <==> c.ptr.rbLeft == PtrOf(t)
  {
    assert PtrOf(c.sib) in CtxNodes(c);
  }

  // red sibling: the parent turns red below its former child
  ghost function LowerLeft(c: Ctx): Ctx
    requires c.InLeft? && c.sib.Node?
  {
    InLeft(InLeft(c.up, c.sib.ptr, Black, c.sib.right), c.ptr, Red, c.sib.left)
  }

  lemma LowerLeftOk(c: Ctx, t: Tree)
    requires c.InLeft? && IsRed(c.sib) && CtxRB(c, BlackHeight(t) + 1)
    ensures var d := LowerLeft(c);
      CtxRB(d, BlackHeight(t) + 1) && d.sib.Node? && !IsRed(d.sib) && SeqOf(d, t) == SeqOf(c, t)
  {
    var d := LowerLeft(c);
    ZipUpSeq(c, t);
    RotLeftInorder(FocusOf(c, t));
    ZipUpSeq(d, t);
    ZipUpSeq(d.up, FocusOf(d, t));
    assert CtxRB(d.up, BlackHeight(t) + 1);
  }

  // black nephews: the shortfall moves up to the parent
  lemma RiseLeftOk(c: Ctx, t: Tree)
    requires c.InLeft? && c.sib.Node? && !IsRed(c.sib) && !IsRed(c.sib.left) && !IsRed(c.sib.right)
    requires !IsRed(t) && RB(t) && CtxRB(c, BlackHeight(t) + 1)
    ensures var p := FocusOf(c, t); var u := p.(right := c.sib.(color := Red));
      RB(Blacken(u)) && CtxRB(c.up, BlackHeight(u) + 1) && SeqOf(c.up, u) == SeqOf(c, t)
  {
    ZipUpSeq(c, t);
    assert Inorder(c.sib.(color := Red)) == Inorder(c.sib);
    assert RB(c.sib.(color := Red));
  }

  // the outer nephew made red
  ghost function OuterLeft(s: Tree): Tree
    requires s.Node? && (!IsRed(s.right) ==> s.left.Node?)
  {
    if IsRed(s.right) then s else RotRight(s.(left := s.left.(color := Black), color := Red))
  }

  lemma OuterLeftOk(s: Tree)
    requires RB(s) && s.Node? && s.color == Black && (IsRed(s.left) || IsRed(s.right))
    ensures var o := OuterLeft(s);
      && o.Node? && IsRed(o.right) && Inorder(o) == Inorder(s)
      && RB(o.left) && RB(o.right.(color := Black))
      && BlackHeight(o.left) + 1 == BlackHeight(o.right.(color := Black)) == BlackHeight(s)
  {
    if !IsRed(s.right) {
      var pre := s.(left := s.left.(color := Black), color := Red);
      assert Inorder(pre.left) == Inorder(s.left);
      assert Inorder(pre) == Inorder(s);
      RotRightInorder(pre);
    }
  }

  // recoloured and rotated: the sibling takes the parent's place and colour
  ghost function SettledLeft(p: Tree): Tree
    requires p.Node? && p.right.Node? && p.right.right.Node?
  {
    RotLeft(p.(color := Black, right := p.right.(color := p.color, right := p.right.right.(color := Black))))
  }

  ghost function SettleLeft(c: Ctx, t: Tree): Tree
    requires c.InLeft? && c.sib.Node? && (IsRed(c.sib.left) || IsRed(c.sib.right))
  {
    SettledLeft(Node(left := t, ptr := c.ptr, color := c.color, right := OuterLeft(c.sib)))
  }

  lemma SettleLeftOk(c: Ctx, t: Tree)
    requires c.InLeft? && c.sib.Node? && !IsRed(c.sib) && (IsRed(c.sib.left) || IsRed(c.sib.right))
    requires !IsRed(t) && RB(t) && CtxRB(c, BlackHeight(t) + 1)
    ensures RedBlackTree(Plug(c.up, SettleLeft(c, t)))
    ensures Inorder(Plug(c.up, SettleLeft(c, t))) == SeqOf(c, t)
  {
    var p := FocusOf(c, t);
    var s := OuterLeft(c.sib);
    OuterLeftOk(c.sib);
    var s' := s.(color := c.color, right := s.right.(color := Black));
    assert Inorder(s'.right) == Inorder(s.right);
    assert Inorder(s') == Inorder(s);
    var q := p.(color := Black, right := s');
    assert Inorder(q) == Inorder(p);
    RotLeftInorder(q);
    ZipUpSeq(c, t);
    PlugInorder(c.up, SettleLeft(c, t));
    assert RB(RotLeft(q).left);
    PlugRB(c.up, SettleLeft(c, t));
  }

  // the sibling is red
  method RedSiblingLeft(other: RbNode, parent: RbNode, root: RbRoot, ghost c: Ctx, ghost t: Tree)
    requires At(root, c, t) && c.InLeft? && c.sib.Node? && other == c.sib.ptr && parent == c.ptr
    modifies root`rbNode, root.Repr
    ensures At(root, LowerLeft(c), t)
  {
    ghost var p := FocusOf(c, t);
    ZipUp(root, c, t);
    PaintRight(other, Black, root, c.up, p);
    ghost var p1 := p.(right := p.right.(color := Black));
    Paint(parent, Red, root, c.up, p1);
    ghost var p2 := p1.(color := Red);
    RotateLeft(parent, root, c.up, p2);
    ZipLeft(root, c.up, RotLeft(p2));
    ZipLeft(root, LowerLeft(c).up, RotLeft(p2).left);
  }

  // the outer nephew is not red
  method InnerNephewLeft(other: RbNode, root: RbRoot, ghost c: Ctx, ghost t: Tree)
    requires At(root, c, t) && c.InLeft? && c.sib.Node? && other == c.sib.ptr
    requires !IsRed(c.sib.right) && IsRed(c.sib.left)
    modifies root`rbNode, root.Repr
    ensures var p := FocusOf(c, t); At(root, c.up, p.(right := OuterLeft(c.sib)))
  {
    ghost var p := FocusOf(c, t);
    ZipUp(root, c, t);
    ghost var d := InRight(c.up, c.ptr, c.color, t);
    ZipRight(root, c.up, p);
    var near := other.rbLeft;
    if near != null {
      PaintLeft(near, Black, root, d, c.sib);
    }
    ghost var s1 := c.sib.(left := c.sib.left.(color := Black));
    Paint(other, Red, root, d, s1);
    RotateRight(other, root, d, s1.(color := Red));
    ZipUp(root, d, OuterLeft(c.sib));
  }

  method SettleSiblingLeft(other: RbNode, parent: RbNode, root: RbRoot, ghost c: Ctx, ghost p: Tree)
    requires At(root, c, p) && p.Node? && parent == p.ptr && p.right.Node? && other == p.right.ptr &&
      p.right.right.Node?
    modifies root`rbNode, root.Repr
    ensures At(root, c, SettledLeft(p))
  {
    PaintRight(other, parent.rbColor, root, c, p);
    ghost var p1 := p.(right := p.right.(color := p.color));
    Paint(parent, Black, root, c, p1);
    ghost var p2 := p1.(color := Black);
    ghost var d := InRight(c, p2.ptr, Black, p2.left);
    ZipRight(root, c, p2);
    if other.rbRight != null {
      PaintRight(other.rbRight, Black, root, d, p2.right);
    }
    ghost var s := p2.right.(right := p2.right.right.(color := Black));
    ZipUp(root, d, s);
    RotateLeft(parent, root, c, p2.(right := s));
  }

  method OuterNephewLeft(sibling: RbNode, parent: RbNode, root: RbRoot, ghost c: Ctx, ghost t: Tree)
    returns (other: RbNode)
    requires At(root, c, t) && c.InLeft? && c.sib.Node? && parent == c.ptr && sibling == c.sib.ptr
    requires IsRed(c.sib.left) || IsRed(c.sib.right)
    modifies root`rbNode, root.Repr
    ensures At(root, c.up, Node(left := t, ptr := c.ptr, color := c.color, right := OuterLeft(c.sib)))
    ensures other == OuterLeft(c.sib).ptr
  {
    SiblingLinks(root, c, t);
    other := sibling;
    if other.rbRight == null || other.rbRight.rbColor == Black {
      InnerNephewLeft(other, root, c, t);
      other := parent.rbRight;
    } else {
      ZipUp(root, c, t);
    }
  }

  method EraseSettleLeft(sibling: RbNode, parent: RbNode, root: RbRoot, ghost c: Ctx, ghost t: Tree)
    returns (next: RbNode?, ghost c': Ctx, ghost t': Tree)
    requires At(root, c, t) && RB(t) && !IsRed(t) && CtxRB(c, BlackHeight(t) + 1)
    requires c.InLeft? && c.sib.Node? && !IsRed(c.sib) && (IsRed(c.sib.left) || IsRed(c.sib.right))
    requires parent == c.ptr && sibling == c.sib.ptr
    modifies root`rbNode, root.Repr
    ensures At(root, c', t') && next == PtrOf(t') && c'.Top? && RedBlackTree(t') && SeqOf(c', t') == SeqOf(c, t)
  {
    SettleLeftOk(c, t);
    OuterLeftOk(c.sib);
    var other := OuterNephewLeft(sibling, parent, root, c, t);
    SettleSiblingLeft(other, parent, root, c.up,
                      Node(left := t, ptr := c.ptr, color := c.color, right := OuterLeft(c.sib)));
    PlugAt(root, c.up, SettleLeft(c, t));
    TopSeq(Plug(c.up, SettleLeft(c, t)));
    next, c', t' := root.rbNode, Top, Plug(c.up, SettleLeft(c, t));
  }

  // the sibling is black
  method EraseSharedLeft(other: RbNode, parent: RbNode, root: RbRoot, ghost c: Ctx, ghost t: Tree)
    returns (next: RbNode?, above: RbNode?, done: bool, ghost c': Ctx, ghost t': Tree)
    requires At(root, c, t) && RB(t) && !IsRed(t) && CtxRB(c, BlackHeight(t) + 1)
    requires c.InLeft? && c.sib.Node? && !IsRed(c.sib) && parent == c.ptr && other == c.sib.ptr
    modifies root`rbNode, root.Repr
    ensures ShortAt(root, c', t') && next == PtrOf(t') && SeqOf(c', t') == SeqOf(c, t)
    ensures above == ParentOf(c')
    ensures if done then c'.Top? && RedBlackTree(t') else c' == c.up && IsRed(t') == (c.color == Red)
  {
    SiblingLinks(root, c, t);
    if (other.rbLeft == null || other.rbLeft.rbColor == Black)
      && (other.rbRight == null || other.rbRight.rbColor == Black)
    {
      ZipUp(root, c, t);
      RiseLeftOk(c, t);
      ghost var p := FocusOf(c, t);
      PaintRight(other, Red, root, c.up, p);
      c', t' := c.up, p.(right := c.sib.(color := Red));
      next := parent;
      above := next.rbParent;
      done := false;
    } else {
      next, c', t' := EraseSettleLeft(other, parent, root, c, t);
      above, done := null, true;
    }
  }

  method EraseStepLeft(node: RbNode?, parent: RbNode, root: RbRoot, ghost c: Ctx, ghost t: Tree)
    returns (next: RbNode?, above: RbNode?, done: bool, ghost c': Ctx, ghost t': Tree)
    requires ShortAt(root, c, t) && !IsRed(t) && c.InLeft? && node == PtrOf(t) && parent == c.ptr
    modifies root`rbNode, root.Repr
    ensures ShortAt(root, c', t') && next == PtrOf(t') && SeqOf(c', t') == SeqOf(c, t)
    ensures above == ParentOf(c')
    ensures if done then c'.Top? && RedBlackTree(t') else Shortfall(c', t') < Shortfall(c, t)
  {
    ghost var d := c;
    SiblingLinks(root, c, t);
    var other := parent.rbRight;
    if other.rbColor == Red {
      RedSiblingLeft(other, parent, root, c, t);
      LowerLeftOk(c, t);
      d := LowerLeft(c);
      SiblingLinks(root, d, t);
      other := parent.rbRight;
    }
    next, above, done, c', t' := EraseSharedLeft(other, parent, root, d, t);
  }

  // red sibling: the parent turns red below its former child
  ghost function LowerRight(c: Ctx): Ctx
    requires c.InRight? && c.sib.Node?
  {
    InRight(InRight(c.up, c.sib.ptr, Black, c.sib.left), c.ptr, Red, c.sib.right)
  }

  lemma LowerRightOk(c: Ctx, t: Tree)
    requires c.InRight? && IsRed(c.sib) && CtxRB(c, BlackHeight(t) + 1)
    ensures var d := LowerRight(c);
      CtxRB(d, BlackHeight(t) + 1) && d.sib.Node? && !IsRed(d.sib) && SeqOf(d, t) == SeqOf(c, t)
  {
    var d := LowerRight(c);
    ZipUpSeq(c, t);
    RotRightInorder(FocusOf(c, t));
    ZipUpSeq(d, t);
    ZipUpSeq(d.up, FocusOf(d, t));
    assert CtxRB(d.up, BlackHeight(t) + 1);
  }

  // black nephews: the shortfall moves up to the parent
  lemma RiseRightOk(c: Ctx, t: Tree)
    requires c.InRight? && c.sib.Node? && !IsRed(c.sib) && !IsRed(c.sib.right) && !IsRed(c.sib.left)
    requires !IsRed(t) && RB(t) && CtxRB(c, BlackHeight(t) + 1)
    ensures var p := FocusOf(c, t); var u := p.(left := c.sib.(color := Red));
      RB(Blacken(u)) && CtxRB(c.up, BlackHeight(u) + 1) && SeqOf(c.up, u) == SeqOf(c, t)
  {
    ZipUpSeq(c, t);
    assert Inorder(c.sib.(color := Red)) == Inorder(c.sib);
    assert RB(c.sib.(color := Red));
  }

  // the outer nephew made red
  ghost function OuterRight(s: Tree): Tree
    requires s.Node? && (!IsRed(s.left) ==> s.right.Node?)
  {
    if IsRed(s.left) then s else RotLeft(s.(right := s.right.(color := Black), color := Red))
  }

  lemma OuterRightOk(s: Tree)
    requires RB(s) && s.Node? && s.color == Black && (IsRed(s.right) || IsRed(s.left))
    ensures var o := OuterRight(s);
      && o.Node? && IsRed(o.left) && Inorder(o) == Inorder(s)
      && RB(o.right) && RB(o.left.(color := Black))
      && BlackHeight(o.right) + 1 == BlackHeight(o.left.(color := Black)) == BlackHeight(s)
  {
    if !IsRed(s.left) {
      var pre := s.(right := s.right.(color := Black), color := Red);
      assert Inorder(pre.right) == Inorder(s.right);
      assert Inorder(pre) == Inorder(s);
      RotLeftInorder(pre);
    }
  }

  // recoloured and rotated: the sibling takes the parent's place and colour
  ghost function SettledRight(p: Tree): Tree
    requires p.Node? && p.left.Node? && p.left.left.Node?
  {
    RotRight(p.(color := Black, left := p.left.(color := p.color, left := p.left.left.(color := Black))))
  }

  ghost function SettleRight(c: Ctx, t: Tree): Tree
    requires c.InRight? && c.sib.Node? && (IsRed(c.sib.right) || IsRed(c.sib.left))
  {
    SettledRight(Node(right := t, ptr := c.ptr, color := c.color, left := OuterRight(c.sib)))
  }

  lemma SettleRightOk(c: Ctx, t: Tree)
    requires c.InRight? && c.sib.Node? && !IsRed(c.sib) && (IsRed(c.sib.right) || IsRed(c.sib.left))
    requires !IsRed(t) && RB(t) && CtxRB(c, BlackHeight(t) + 1)
    ensures RedBlackTree(Plug(c.up, SettleRight(c, t)))
    ensures Inorder(Plug(c.up, SettleRight(c, t))) == SeqOf(c, t)
  {
    var p := FocusOf(c, t);
    var s := OuterRight(c.sib);
    OuterRightOk(c.sib);
    var s' := s.(color := c.color, left := s.left.(color := Black));
    assert Inorder(s'.left) == Inorder(s.left);
    assert Inorder(s') == Inorder(s);
    var q := p.(color := Black, left := s');
    assert Inorder(q) == Inorder(p);
    RotRightInorder(q);
    ZipUpSeq(c, t);
    PlugInorder(c.up, SettleRight(c, t));
    assert RB(RotRight(q).right);
    PlugRB(c.up, SettleRight(c, t));
  }

  // the sibling is red
  method RedSiblingRight(other: RbNode, parent: RbNode, root: RbRoot, ghost c: Ctx, ghost t: Tree)
    requires At(root, c, t) && c.InRight? && c.sib.Node? && other == c.sib.ptr && parent == c.ptr
    modifies root`rbNode, root.Repr
    ensures At(root, LowerRight(c), t)
  {
    ghost var p := FocusOf(c, t);
    ZipUp(root, c, t);
    PaintLeft(other, Black, root, c.up, p);
    ghost var p1 := p.(left := p.left.(color := Black));
    Paint(parent, Red, root, c.up, p1);
    ghost var p2 := p1.(color := Red);
    RotateRight(parent, root, c.up, p2);
    ZipRight(root, c.up, RotRight(p2));
    ZipRight(root, LowerRight(c).up, RotRight(p2).right);
  }

  // the outer nephew is not red
  method InnerNephewRight(other: RbNode, root: RbRoot, ghost c: Ctx, ghost t: Tree)
    requires At(root, c, t) && c.InRight? && c.sib.Node? && other == c.sib.ptr
    requires !IsRed(c.sib.left) && IsRed(c.sib.right)
    modifies root`rbNode, root.Repr
    ensures var p := FocusOf(c, t); At(root, c.up, p.(left := OuterRight(c.sib)))
  {
    ghost var p := FocusOf(c, t);
    ZipUp(root, c, t);
    ghost var d := InLeft(c.up, c.ptr, c.color, t);
    ZipLeft(root, c.up, p);
    var near := other.rbRight;
    if near != null {
      PaintRight(near, Black, root, d, c.sib);
    }
    ghost var s1 := c.sib.(right := c.sib.right.(color := Black));
    Paint(other, Red, root, d, s1);
    RotateLeft(other, root, d, s1.(color := Red));
    ZipUp(root, d, OuterRight(c.sib));
  }

  method SettleSiblingRight(other: RbNode, parent: RbNode, root: RbRoot, ghost c: Ctx, ghost p: Tree)
    requires At(root, c, p) && p.Node? && parent == p.ptr && p.left.Node? && other == p.left.ptr && p.left.left.Node?
    modifies root`rbNode, root.Repr
    ensures At(root, c, SettledRight(p))
  {
    PaintLeft(other, parent.rbColor, root, c, p);
    ghost var p1 := p.(left := p.left.(color := p.color));
    Paint(parent, Black, root, c, p1);
    ghost var p2 := p1.(color := Black);
    ghost var d := InLeft(c, p2.ptr, Black, p2.right);
    ZipLeft(root, c, p2);
    if other.rbLeft != null {
      PaintLeft(other.rbLeft, Black, root, d, p2.left);
    }
    ghost var s := p2.left.(left := p2.left.left.(color := Black));
    ZipUp(root, d, s);
    RotateRight(parent, root, c, p2.(left := s));
  }

  method OuterNephewRight(sibling: RbNode, parent: RbNode, root: RbRoot, ghost c: Ctx, ghost t: Tree)
    returns (other: RbNode)
    requires At(root, c, t) && c.InRight? && c.sib.Node? && parent == c.ptr && sibling == c.sib.ptr
    requires IsRed(c.sib.right) || IsRed(c.sib.left)
    modifies root`rbNode, root.Repr
    ensures At(root, c.up, Node(right := t, ptr := c.ptr, color := c.color, left := OuterRight(c.sib)))
    ensures other == OuterRight(c.sib).ptr
  {
    SiblingLinks(root, c, t);
    other := sibling;
    if other.rbLeft == null || other.rbLeft.rbColor == Black {
      InnerNephewRight(other, root, c, t);
      other := parent.rbLeft;
    } else {
      ZipUp(root, c, t);
    }
  }

  method EraseSettleRight(sibling: RbNode, parent: RbNode, root: RbRoot, ghost c: Ctx, ghost t: Tree)
    returns (next: RbNode?, ghost c': Ctx, ghost t': Tree)
    requires At(root, c, t) && RB(t) && !IsRed(t) && CtxRB(c, BlackHeight(t) + 1)
    requires c.InRight? && c.sib.Node? && !IsRed(c.sib) && (IsRed(c.sib.right) || IsRed(c.sib.left))
    requires parent == c.ptr && sibling == c.sib.ptr
    modifies root`rbNode, root.Repr
    ensures At(root, c', t') && next == PtrOf(t') && c'.Top? && RedBlackTree(t') && SeqOf(c', t') == SeqOf(c, t)
  {
    SettleRightOk(c, t);
    OuterRightOk(c.sib);
    var other := OuterNephewRight(sibling, parent, root, c, t);
    SettleSiblingRight(other, parent, root, c.up,
                       Node(right := t, ptr := c.ptr, color := c.color, left := OuterRight(c.sib)));
    PlugAt(root, c.up, SettleRight(c, t));
    TopSeq(Plug(c.up, SettleRight(c, t)));
    next, c', t' := root.rbNode, Top, Plug(c.up, SettleRight(c, t));
  }

  // the sibling is black
  method EraseSharedRight(other: RbNode, parent: RbNode, root: RbRoot, ghost c: Ctx, ghost t: Tree)
    returns (next: RbNode?, above: RbNode?, done: bool, ghost c': Ctx, ghost t': Tree)
    requires At(root, c, t) && RB(t) && !IsRed(t) && CtxRB(c, BlackHeight(t) + 1)
    requires c.InRight? && c.sib.Node? && !IsRed(c.sib) && parent == c.ptr && other == c.sib.ptr
    modifies root`rbNode, root.Repr
    ensures ShortAt(root, c', t') && next == PtrOf(t') && SeqOf(c', t') == SeqOf(c, t)
    ensures above == ParentOf(c')
    ensures if done then c'.Top? && RedBlackTree(t') else c' == c.up && IsRed(t') == (c.color == Red)
  {
    SiblingLinks(root, c, t);
    if (other.rbRight == null || other.rbRight.rbColor == Black)
      && (other.rbLeft == null || other.rbLeft.rbColor == Black)
    {
      ZipUp(root, c, t);
      RiseRightOk(c, t);
      ghost var p := FocusOf(c, t);
      PaintLeft(other, Red, root, c.up, p);
      c', t' := c.up, p.(left := c.sib.(color := Red));
      next := parent;
      above := next.rbParent;
      done := false;
    } else {
      next, c', t' := EraseSettleRight(other, parent, root, c, t);
      above, done := null, true;
    }
  }

  method EraseStepRight(node: RbNode?, parent: RbNode, root: RbRoot, ghost c: Ctx, ghost t: Tree)
    returns (next: RbNode?, above: RbNode?, done: bool, ghost c': Ctx, ghost t': Tree)
    requires ShortAt(root, c, t) && !IsRed(t) && c.InRight? && node == PtrOf(t) && parent == c.ptr
    modifies root`rbNode, root.Repr
    ensures ShortAt(root, c', t') && next == PtrOf(t') && SeqOf(c', t') == SeqOf(c, t)
    ensures above == ParentOf(c')
    ensures if done then c'.Top? && RedBlackTree(t') else Shortfall(c', t') < Shortfall(c, t)
  {
    ghost var d := c;
    SiblingLinks(root, c, t);
    var other := parent.rbLeft;
    if other.rbColor == Red {
      RedSiblingRight(other, parent, root, c, t);
      LowerRightOk(c, t);
      d := LowerRight(c);
      SiblingLinks(root, d, t);
      other := parent.rbLeft;
    }
    next, above, done, c', t' := EraseSharedRight(other, parent, root, d, t);
  }

  method EraseFinish(node: RbNode?, root: RbRoot, ghost c: Ctx, ghost t: Tree) returns (ghost tree: Tree)
    requires At(root, c, t) && node == PtrOf(t)
    modifies root`rbNode, root.Repr
    ensures tree == Plug(c, Blacken(t)) && At(root, Top, tree)
  {
    if node != null {
      Paint(node, Black, root, c, t);
    }
    tree := Plug(c, Blacken(t));
    PlugAt(root, c, Blacken(t));
  }

  method EraseColor(start: RbNode?, startParent: RbNode?, root: RbRoot, ghost c0: Ctx, ghost t0: Tree)
    returns (ghost tree: Tree)
    requires ShortAt(root, c0, t0) && start == PtrOf(t0) && startParent == ParentOf(c0)
    modifies root`rbNode, root.Repr
    ensures At(root, Top, tree) && RedBlackTree(tree)
    ensures Inorder(tree) == SeqOf(c0, t0)
  {
    var node, parent := start, startParent;
    ghost var c, t := c0, t0;
    while (node == null || node.rbColor == Black) && node != root.rbNode
      invariant ShortAt(root, c, t) && node == PtrOf(t) && parent == ParentOf(c) && SeqOf(c, t) == SeqOf(c0, t0)
      decreases Shortfall(c, t)
    {
      SlotOf(root, c, t);
      var done;
      if parent.rbLeft == node {
        node, parent, done, c, t := EraseStepLeft(node, parent, root, c, t);
      } else {
        node, parent, done, c, t := EraseStepRight(node, parent, root, c, t);
      }
      if done { break; }
    }
    FinishOk(root, c, t);
    tree := EraseFinish(node, root, c, t);
  }
}
