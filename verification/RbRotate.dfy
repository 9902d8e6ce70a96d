// Rotations and colour changes, rewriting the links in place.
module RbRotate {
  import opened RbTree
  import opened Sequences

  // child->rb_parent = parent, when there is a child
  method SetParent(child: RbNode?, parent: RbNode?, ghost was: RbNode?, ghost t: Tree)
    requires child == PtrOf(t) && Proper(t) && Linked(t, was)
    modifies if child == null then {} else {child}
    ensures Linked(t, parent)
  {
    if child != null {
      child.rbParent := parent;
    }
  }

  // the pointer to `from` held by its parent, or by the root, now points to `to`
  method ReplaceChild(root: RbRoot, parent: RbNode?, from: RbNode, to: RbNode?, ghost c: Ctx)
    requires CtxProper(c) && CtxLinked(c, root, from) && parent == ParentOf(c)
    requires !c.Top? ==> PtrOf(c.sib) != from
    modifies root`rbNode, if parent == null then {} else {parent}
    ensures CtxLinked(c, root, to)
  {
    if parent != null {
      if parent.rbLeft == from {
        parent.rbLeft := to;
      } else {
        parent.rbRight := to;
      }
    } else {
      root.rbNode := to;
    }
  }

  ghost function RotLeft(t: Tree): Tree
    requires t.Node? && t.right.Node?
  {
    Node(Node(t.left, t.ptr, t.color, t.right.left), t.right.ptr, t.right.color, t.right.right)
  }

  lemma RotLeftShape(t: Tree)
    requires Proper(t) && t.Node? && t.right.Node?
    ensures Proper(RotLeft(t)) && Nodes(RotLeft(t)) == Nodes(t)
    ensures t.ptr !in Nodes(t.left) + Nodes(t.right.left) + Nodes(t.right.right)
    ensures t.right.ptr !in Nodes(t.left) + Nodes(t.right.left) + Nodes(t.right.right)
    ensures t.ptr != t.right.ptr
    ensures Nodes(t.left) !! Nodes(t.right.left) !! Nodes(t.right.right)
    ensures Nodes(t) == Nodes(t.left) + {t.ptr} + Nodes(t.right.left) + {t.right.ptr} + Nodes(t.right.right)
  {
  }

  lemma RotLeftInorder(t: Tree)
    requires t.Node? && t.right.Node?
    ensures Inorder(RotLeft(t)) == Inorder(t)
  {
    var head, mid, tail := Inorder(t.left) + [t.ptr], Inorder(t.right.left), Inorder(t.right.right);
    assert Inorder(RotLeft(t).left) == head + mid;
    Assoc(head, mid + [t.right.ptr], tail);
    Assoc(head, mid, [t.right.ptr]);
  }

  // the links inside the rotated subtree; the slot above still holds node
  method SwingLeft(node: RbNode, right: RbNode, ghost t: Tree, ghost parent: RbNode?, ghost repr: set<RbNode>)
    requires Proper(t) && Nodes(t) <= repr && Linked(t, parent) && t.Node? && t.right.Node?
    requires t.ptr == node && t.right.ptr == right
    modifies node, right, if right.rbLeft == null then {} else {right.rbLeft}
    ensures Linked(RotLeft(t), parent)
  {
    RotLeftShape(t);
    assert Linked(t.right, node);
    node.rbRight := right.rbLeft;
    SetParent(right.rbLeft, node, right, t.right.left);
    right.rbLeft := node;
    right.rbParent := node.rbParent;
    node.rbParent := right;
    assert Linked(RotLeft(t).left, right);
  }

  method RotateLeft(node: RbNode, root: RbRoot, ghost c: Ctx, ghost t: Tree)
    requires At(root, c, t) && t.Node? && t.right.Node? && t.ptr == node
    modifies root`rbNode, root.Repr
    ensures At(root, c, RotLeft(t))
  {
    var right := node.rbRight;
    RotLeftShape(t);
    assert Linked(t.right, node);
    SwingLeft(node, right, t, ParentOf(c), root.Repr);
    ReplaceChild(root, right.rbParent, node, right, c);
  }

  ghost function RotRight(t: Tree): Tree
    requires t.Node? && t.left.Node?
  {
    Node(t.left.left, t.left.ptr, t.left.color, Node(t.left.right, t.ptr, t.color, t.right))
  }

  lemma RotRightShape(t: Tree)
    requires Proper(t) && t.Node? && t.left.Node?
    ensures Proper(RotRight(t)) && Nodes(RotRight(t)) == Nodes(t)
    ensures t.ptr !in Nodes(t.right) + Nodes(t.left.right) + Nodes(t.left.left)
    ensures t.left.ptr !in Nodes(t.right) + Nodes(t.left.right) + Nodes(t.left.left)
    ensures t.ptr != t.left.ptr
    ensures Nodes(t.right) !! Nodes(t.left.right) !! Nodes(t.left.left)
    ensures Nodes(t) == Nodes(t.right) + {t.ptr} + Nodes(t.left.right) + {t.left.ptr} + Nodes(t.left.left)
  {
  }

  lemma RotRightInorder(t: Tree)
    requires t.Node? && t.left.Node?
    ensures Inorder(RotRight(t)) == Inorder(t)
  {
    assert Inorder(t.left) == Inorder(t.left.left) + [t.left.ptr] + Inorder(t.left.right);
    var head, mid, tail := Inorder(t.left.left) + [t.left.ptr], Inorder(t.left.right), Inorder(t.right);
    assert Inorder(RotRight(t).right) == mid + [t.ptr] + tail;
    Assoc(head, mid + [t.ptr], tail);
    Assoc(head, mid, [t.ptr]);
  }

  // the links inside the rotated subtree; the slot above still holds node
  method SwingRight(node: RbNode, left: RbNode, ghost t: Tree, ghost parent: RbNode?, ghost repr: set<RbNode>)
    requires Proper(t) && Nodes(t) <= repr && Linked(t, parent) && t.Node? && t.left.Node?
    requires t.ptr == node && t.left.ptr == left
    modifies node, left, if left.rbRight == null then {} else {left.rbRight}
    ensures Linked(RotRight(t), parent)
  {
    RotRightShape(t);
    assert Linked(t.left, node);
    node.rbLeft := left.rbRight;
    SetParent(left.rbRight, node, left, t.left.right);
    left.rbRight := node;
    left.rbParent := node.rbParent;
    node.rbParent := left;
    assert Linked(RotRight(t).right, left);
  }

  method RotateRight(node: RbNode, root: RbRoot, ghost c: Ctx, ghost t: Tree)
    requires At(root, c, t) && t.Node? && t.left.Node? && t.ptr == node
    modifies root`rbNode, root.Repr
    ensures At(root, c, RotRight(t))
  {
    var left := node.rbLeft;
    RotRightShape(t);
    assert Linked(t.left, node);
    SwingRight(node, left, t, ParentOf(c), root.Repr);
    ReplaceChild(root, left.rbParent, node, left, c);
  }

  method Paint(node: RbNode, color: Color, root: RbRoot, ghost c: Ctx, ghost t: Tree)
    requires At(root, c, t) && t.Node? && t.ptr == node
    modifies node`rbColor
    ensures At(root, c, t.(color := color))
  {
    node.rbColor := color;
  }

  method PaintLeft(node: RbNode, color: Color, root: RbRoot, ghost c: Ctx, ghost t: Tree)
    requires At(root, c, t) && t.Node? && t.left.Node? && t.left.ptr == node
    modifies node`rbColor
    ensures At(root, c, t.(left := t.left.(color := color)))
  {
    ghost var c' := InLeft(c, t.ptr, t.color, t.right);
    ZipLeft(root, c, t);
    Paint(node, color, root, c', t.left);
    ZipUp(root, c', t.left.(color := color));
  }

  method PaintRight(node: RbNode, color: Color, root: RbRoot, ghost c: Ctx, ghost t: Tree)
    requires At(root, c, t) && t.Node? && t.right.Node? && t.right.ptr == node
    modifies node`rbColor
    ensures At(root, c, t.(right := t.right.(color := color)))
  {
    ghost var c' := InRight(c, t.ptr, t.color, t.left);
    ZipRight(root, c, t);
    Paint(node, color, root, c', t.right);
    ZipUp(root, c', t.right.(color := color));
  }
}
