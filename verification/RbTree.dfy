// The pointer tree of rbtree.c, the value it stands for, and the red-black shape.
// A context (Ctx) is a tree with a hole, so that a loop that climbs or descends can say where it is.
module RbTree {
  import opened Sequences

  datatype Color = Red | Black

  class RbNode {
    var rbParent: RbNode?
    var rbColor: Color
    var rbRight: RbNode?
    var rbLeft: RbNode?

    constructor ()
      ensures rbParent == rbRight == rbLeft == null && rbColor == Red
    {
      rbParent, rbRight, rbLeft, rbColor := null, null, null, Red;
    }
  }

  class RbRoot {
    var rbNode: RbNode?
    ghost var Repr: set<RbNode>
    ghost var tree: Tree

    constructor ()
      ensures Valid() && tree == Leaf
    {
      rbNode, Repr, tree := null, {}, Leaf;
    }

    ghost predicate Valid()
      reads this, Repr
    {
      At(this, Top, tree) && RedBlackTree(tree)
    }
  }

  datatype Tree = Leaf | Node(left: Tree, ptr: RbNode, color: Color, right: Tree)

  datatype Ctx =
    | Top
    | InLeft(up: Ctx, ptr: RbNode, color: Color, sib: Tree)
    | InRight(up: Ctx, ptr: RbNode, color: Color, sib: Tree)

  ghost function PtrOf(t: Tree): (p: RbNode?)
    ensures p != null ==> p in Nodes(t)
  {
    if t.Leaf? then null else t.ptr
  }

  ghost function ParentOf(c: Ctx): (p: RbNode?)
    ensures p != null ==> p in CtxNodes(c)
  {
    if c.Top? then null else c.ptr
  }

  ghost function Nodes(t: Tree): set<RbNode> {
    if t.Leaf? then {} else Nodes(t.left) + {t.ptr} + Nodes(t.right)
  }

  ghost function CtxNodes(c: Ctx): set<RbNode> {
    if c.Top? then {} else CtxNodes(c.up) + {c.ptr} + Nodes(c.sib)
  }

  ghost predicate Proper(t: Tree) {
    t.Node? ==>
      && Proper(t.left) && Proper(t.right)
      && t.ptr !in Nodes(t.left) && t.ptr !in Nodes(t.right)
      && Nodes(t.left) !! Nodes(t.right)
  }

  ghost predicate CtxProper(c: Ctx) {
    !c.Top? ==>
      && CtxProper(c.up) && Proper(c.sib)
      && c.ptr !in CtxNodes(c.up) && c.ptr !in Nodes(c.sib)
      && CtxNodes(c.up) !! Nodes(c.sib)
  }

  ghost predicate Linked(t: Tree, parent: RbNode?)
    reads Nodes(t)
  {
    t.Node? ==>
      && t.ptr.rbLeft == PtrOf(t.left)
      && t.ptr.rbRight == PtrOf(t.right)
      && t.ptr.rbColor == t.color
      && t.ptr.rbParent == parent
      && Linked(t.left, t.ptr)
      && Linked(t.right, t.ptr)
  }

  ghost predicate CtxLinked(c: Ctx, root: RbRoot, hole: RbNode?)
    reads root`rbNode, CtxNodes(c)
  {
    match c
    case Top => root.rbNode == hole
    case InLeft(up, p, color, sib) =>
      && p.rbLeft == hole && p.rbRight == PtrOf(sib)
      && p.rbColor == color && p.rbParent == ParentOf(up)
      && Linked(sib, p) && CtxLinked(up, root, p)
    case InRight(up, p, color, sib) =>
      && p.rbRight == hole && p.rbLeft == PtrOf(sib)
      && p.rbColor == color && p.rbParent == ParentOf(up)
      && Linked(sib, p) && CtxLinked(up, root, p)
  }

  ghost predicate At(root: RbRoot, c: Ctx, t: Tree)
    reads root, root.Repr
  {
    && Nodes(t) + CtxNodes(c) == root.Repr
    && Proper(t) && CtxProper(c) && Nodes(t) !! CtxNodes(c)
    && Linked(t, ParentOf(c)) && CtxLinked(c, root, PtrOf(t))
  }

  ghost function Plug(c: Ctx, t: Tree): Tree {
    match c
    case Top => t
    case InLeft(up, p, color, sib) => Plug(up, Node(t, p, color, sib))
    case InRight(up, p, color, sib) => Plug(up, Node(sib, p, color, t))
  }

  ghost function FocusOf(c: Ctx, t: Tree): (r: Tree)
    requires !c.Top?
    ensures r.Node?
  {
    if c.InLeft? then Node(t, c.ptr, c.color, c.sib) else Node(c.sib, c.ptr, c.color, t)
  }

  ghost function Append(inner: Ctx, outer: Ctx): Ctx {
    if inner.Top? then outer else inner.(up := Append(inner.up, outer))
  }

  ghost function Depth(c: Ctx): nat {
    if c.Top? then 0 else 1 + Depth(c.up)
  }

  ghost function Inorder(t: Tree): seq<RbNode> {
    if t.Leaf? then [] else Inorder(t.left) + [t.ptr] + Inorder(t.right)
  }

  ghost function Before(c: Ctx): seq<RbNode> {
    match c
    case Top => []
    case InLeft(up, _, _, _) => Before(up)
    case InRight(up, p, _, sib) => Before(up) + Inorder(sib) + [p]
  }

  ghost function After(c: Ctx): seq<RbNode> {
    match c
    case Top => []
    case InLeft(up, p, _, sib) => [p] + Inorder(sib) + After(up)
    case InRight(up, _, _, _) => After(up)
  }

  ghost function SeqOf(c: Ctx, t: Tree): seq<RbNode> {
    Before(c) + Inorder(t) + After(c)
  }

  ghost function BlackHeight(t: Tree): nat {
    if t.Leaf? then 0 else BlackHeight(t.left) + if t.color == Black then 1 else 0
  }

  ghost predicate IsRed(t: Tree) {
    t.Node? && t.color == Red
  }

  ghost predicate RB(t: Tree) {
    t.Node? ==>
      && RB(t.left) && RB(t.right)
      && BlackHeight(t.left) == BlackHeight(t.right)
      && (t.color == Red ==> !IsRed(t.left) && !IsRed(t.right))
  }

  ghost predicate RedBlackTree(t: Tree) {
    RB(t) && !IsRed(t)
  }

  ghost predicate CtxRed(c: Ctx) {
    !c.Top? && c.color == Red
  }

  // what the context demands of a subtree of black height h
  ghost predicate CtxRB(c: Ctx, h: nat) {
    !c.Top? ==>
      && RB(c.sib) && BlackHeight(c.sib) == h
      && (c.color == Red ==> !c.up.Top? && !CtxRed(c.up) && !IsRed(c.sib))
      && CtxRB(c.up, h + if c.color == Black then 1 else 0)
  }

  // t may stand where c has its hole
  ghost predicate Fits(c: Ctx, t: Tree) {
    RB(t) && CtxRB(c, BlackHeight(t)) && (IsRed(t) ==> !CtxRed(c) && !c.Top?)
  }

  lemma {:induction false} PlugAt(root: RbRoot, c: Ctx, t: Tree)
    requires At(root, c, t)
    ensures At(root, Top, Plug(c, t))
  {
    match c
    case Top =>
    case InLeft(up, p, color, sib) => PlugAt(root, up, Node(t, p, color, sib));
    case InRight(up, p, color, sib) => PlugAt(root, up, Node(sib, p, color, t));
  }

  lemma {:induction false} PlugInorder(c: Ctx, t: Tree)
    ensures Inorder(Plug(c, t)) == SeqOf(c, t)
  {
    match c
    case Top =>
    case InLeft(up, p, color, sib) => PlugInorder(up, Node(t, p, color, sib));
    case InRight(up, p, color, sib) => PlugInorder(up, Node(sib, p, color, t));
  }

  lemma {:induction false} PlugRB(c: Ctx, t: Tree)
    requires Fits(c, t)
    ensures RedBlackTree(Plug(c, t))
  {
    match c
    case Top =>
    case InLeft(up, p, color, sib) => PlugRB(up, Node(t, p, color, sib));
    case InRight(up, p, color, sib) => PlugRB(up, Node(sib, p, color, t));
  }

  lemma {:induction false} UnplugRB(c: Ctx, t: Tree)
    requires RedBlackTree(Plug(c, t))
    ensures Fits(c, t)
  {
    match c
    case Top =>
    case InLeft(up, p, color, sib) => UnplugRB(up, Node(t, p, color, sib));
    case InRight(up, p, color, sib) => UnplugRB(up, Node(sib, p, color, t));
  }

  lemma ZipUp(root: RbRoot, c: Ctx, t: Tree)
    requires At(root, c, t) && !c.Top?
    ensures At(root, c.up, FocusOf(c, t))
  {
    if c.InLeft? {
      assert Linked(FocusOf(c, t), ParentOf(c.up));
    } else {
      assert Linked(FocusOf(c, t), ParentOf(c.up));
    }
  }

  lemma ZipUpSeq(c: Ctx, t: Tree)
    requires !c.Top?
    ensures SeqOf(c.up, FocusOf(c, t)) == SeqOf(c, t)
  {
    if c.InLeft? { ZipLeftSeq(c.up, FocusOf(c, t)); } else { ZipRightSeq(c.up, FocusOf(c, t)); }
  }

  lemma ZipLeft(root: RbRoot, c: Ctx, t: Tree)
    requires At(root, c, t) && t.Node?
    ensures At(root, InLeft(c, t.ptr, t.color, t.right), t.left)
  {
  }

  lemma ZipLeftSeq(c: Ctx, t: Tree)
    requires t.Node?
    ensures SeqOf(InLeft(c, t.ptr, t.color, t.right), t.left) == SeqOf(c, t)
  {
  }

  lemma ZipRight(root: RbRoot, c: Ctx, t: Tree)
    requires At(root, c, t) && t.Node?
    ensures At(root, InRight(c, t.ptr, t.color, t.left), t.right)
  {
  }

  lemma ZipRightSeq(c: Ctx, t: Tree)
    requires t.Node?
    ensures SeqOf(InRight(c, t.ptr, t.color, t.left), t.right) == SeqOf(c, t)
  {
  }

  lemma AppendTop(c: Ctx)
    ensures Append(c, Top) == c
  {
  }

  lemma TopSeq(t: Tree)
    ensures SeqOf(Top, t) == Inorder(t)
  {
  }

  lemma {:induction false} AppendPlugAt(root: RbRoot, inner: Ctx, outer: Ctx, t: Tree)
    requires At(root, Append(inner, outer), t)
    ensures At(root, outer, Plug(inner, t))
  {
    if !inner.Top? {
      ZipUp(root, Append(inner, outer), t);
      AppendPlugAt(root, inner.up, outer, FocusOf(inner, t));
    }
  }

  lemma {:induction false} UnplugAt(root: RbRoot, inner: Ctx, outer: Ctx, t: Tree)
    requires At(root, outer, Plug(inner, t))
    ensures At(root, Append(inner, outer), t)
  {
    if !inner.Top? {
      UnplugAt(root, inner.up, outer, FocusOf(inner, t));
      if inner.InLeft? {
        ZipLeft(root, Append(inner.up, outer), FocusOf(inner, t));
      } else {
        ZipRight(root, Append(inner.up, outer), FocusOf(inner, t));
      }
    }
  }

  lemma {:induction false} AppendSeq(inner: Ctx, outer: Ctx, t: Tree)
    ensures SeqOf(Append(inner, outer), t) == SeqOf(outer, Plug(inner, t))
  {
    if !inner.Top? {
      AppendSeq(inner.up, outer, FocusOf(inner, t));
      ZipUpSeq(Append(inner, outer), t);
    }
  }

  lemma {:induction false} Locate(outer: Ctx, t: Tree, n: RbNode) returns (c: Ctx, s: Tree)
    requires n in Nodes(t)
    ensures s.Node? && s.ptr == n && Plug(c, s) == Plug(outer, t)
    decreases t
  {
    if t.ptr == n {
      c, s := outer, t;
    } else if n in Nodes(t.left) {
      c, s := Locate(InLeft(outer, t.ptr, t.color, t.right), t.left, n);
    } else {
      c, s := Locate(InRight(outer, t.ptr, t.color, t.left), t.right, n);
    }
  }

  // the zipper at a node of a valid tree
  lemma Focus(root: RbRoot, n: RbNode) returns (c: Ctx, t: Tree)
    requires root.Valid() && n in root.Repr
    ensures At(root, c, t) && t.Node? && t.ptr == n && Plug(c, t) == root.tree
    ensures Fits(c, t)
    ensures SeqOf(c, t) == Inorder(root.tree)
  {
    c, t := Locate(Top, root.tree, n);
    UnplugAt(root, c, Top, t);
    AppendTop(c);
    UnplugRB(c, t);
    PlugInorder(c, t);
  }

  lemma {:induction false} InorderNodes(t: Tree)
    ensures forall n :: n in Inorder(t) <==> n in Nodes(t)
  {
    if t.Node? { InorderNodes(t.left); InorderNodes(t.right); }
  }

  lemma {:induction false} AroundNodes(c: Ctx)
    ensures forall n :: n in Before(c) || n in After(c) <==> n in CtxNodes(c)
  {
    if !c.Top? { AroundNodes(c.up); InorderNodes(c.sib); }
  }

  ghost predicate AllLeft(c: Ctx) {
    c.Top? || (c.InLeft? && AllLeft(c.up))
  }

  lemma {:induction false} NothingBefore(c: Ctx)
    requires AllLeft(c)
    ensures Before(c) == []
  {
    if !c.Top? { NothingBefore(c.up); }
  }

  // which slot of its parent a node hangs in
  lemma SideOf(root: RbRoot, c: Ctx, t: Tree)
    requires At(root, c, t) && !c.Top? && t.Node?
    ensures c.ptr == t.ptr.rbParent
    ensures c.InLeft? <==> c.ptr.rbLeft == t.ptr
    ensures c.InRight? <==> c.ptr.rbRight == t.ptr
  {
    assert PtrOf(t) in Nodes(t);
    assert c.sib.Node? ==> PtrOf(c.sib) in CtxNodes(c);
  }

  lemma SiblingLinks(root: RbRoot, c: Ctx, t: Tree)
    requires At(root, c, t) && !c.Top? && c.sib.Node?
    ensures c.ptr.rbLeft == (if c.InLeft? then PtrOf(t) else c.sib.ptr)
    ensures c.ptr.rbRight == (if c.InLeft? then c.sib.ptr else PtrOf(t))
    ensures c.sib.ptr.rbColor == c.sib.color
    ensures c.sib.ptr.rbLeft == PtrOf(c.sib.left) && c.sib.ptr.rbRight == PtrOf(c.sib.right)
    ensures IsRed(c.sib.left) <==> c.sib.ptr.rbLeft != null && c.sib.ptr.rbLeft.rbColor == Red
    ensures IsRed(c.sib.right) <==> c.sib.ptr.rbRight != null && c.sib.ptr.rbRight.rbColor == Red
  {
    assert Linked(c.sib, c.ptr);
    assert Linked(c.sib.left, c.sib.ptr) && Linked(c.sib.right, c.sib.ptr);
  }

  lemma PlugLeft(inner: Ctx, s: Tree)
    requires AllLeft(inner)
    ensures Inorder(Plug(inner, s)) == Inorder(s) + After(inner)
  {
    NothingBefore(inner);
    PlugInorder(inner, s);
    assert [] + Inorder(s) == Inorder(s);
  }

  lemma LeftmostFirst(inner: Ctx, s: Tree)
    requires AllLeft(inner) && s.Node? && s.left.Leaf?
    ensures Inorder(Plug(inner, s)) == [s.ptr] + Inorder(Plug(inner, s.right))
  {
    PlugLeft(inner, s);
    PlugLeft(inner, s.right);
    assert Inorder(s) == [s.ptr] + Inorder(s.right);
    Assoc([s.ptr], Inorder(s.right), After(inner));
  }
}
