/** `libhashish/lib/hi_rbtree.c`: the tree itself, on nodes with parent pointers. */
module RbTree {
  import opened Entries
  import opened RbShape
  import opened RbBalance
  import opened RbSearch
  import opened Powers
  import opened Options

  class RbRoot {
    var root: RbNode?
    ghost var nodes: set<RbNode>
    ghost var tree: Tree

    ghost function Store(): Store
      reads this`nodes, nodes
    {
      map n | n in nodes :: Cell(n.left, n.right, n.parent, n.red)
    }

    /** The tree of this root is `t` in context `k`; `x` is the pointer to `t`, `p` its parent. */
    ghost predicate At(k: Ctx, t: Tree, x: RbNode?, p: RbNode?)
      reads this`root, this`nodes, nodes
    {
      nodes == Nodes(t) + CtxNodes(k) && Holds(Store(), root, k, t, x, p)
    }

    // ----- rotations ----------------------------------------------------------------------------

    method RotateLeft(node: RbNode)
      requires node in nodes && node.right != null && node.right in nodes && node != node.right
      requires var b := node.right.left; b == null || (b in nodes && b != node && b != node.right && b != node.parent)
      requires var p := node.parent; p == null || (p in nodes && p != node && p != node.right)
      modifies this`root, nodes
      ensures RotatedLeft(old(Store()), Store(), old(root), root, node, old(node.right))
    {
      var right := node.right;
      var parent := node.parent;

      node.right := right.left;
      if right.left != null {
        right.left.parent := node;
      }
      right.left := node;

      right.parent := parent;

      if parent != null {
        if node == parent.left {
          parent.left := right;
        } else {
          parent.right := right;
        }
      } else {
        root := right;
      }
      node.parent := right;
    }

    method RotateRight(node: RbNode)
      requires node in nodes && node.left != null && node.left in nodes && node != node.left
      requires var b := node.left.right; b == null || (b in nodes && b != node && b != node.left && b != node.parent)
      requires var p := node.parent; p == null || (p in nodes && p != node && p != node.left && (p.left == node) != (p.right == node))
      modifies this`root, nodes
      ensures RotatedRight(old(Store()), Store(), old(root), root, node, old(node.left))
    {
      var left := node.left;
      var parent := node.parent;

      node.left := left.right;
      if left.right != null {
        left.right.parent := node;
      }
      left.right := node;

      left.parent := parent;

      if parent != null {
        if node == parent.right {
          parent.right := left;
        } else {
          parent.left := left;
        }
      } else {
        root := left;
      }
      node.parent := left;
    }

    method RotateLeftAt(node: RbNode, ghost k: Ctx, ghost t: Tree)
      requires t.Node? && t.r.Node? && At(k, t, node, node.parent)
      modifies this`root, nodes
      ensures At(k, RotL(t), t.r.n, old(node.parent))
    {
      ghost var s := Store();
      RotLCells(s, root, k, t, node.parent);
      RotateLeft(node);
      RotateLeftHolds(s, Store(), old(root), root, k, t, old(node.parent));
    }

    method RotateRightAt(node: RbNode, ghost k: Ctx, ghost t: Tree)
      requires t.Node? && t.l.Node? && At(k, t, node, node.parent)
      modifies this`root, nodes
      ensures At(k, RotR(t), t.l.n, old(node.parent))
    {
      ghost var s := Store();
      RotRCells(s, root, k, t, node.parent);
      RotateRight(node);
      RotateRightHolds(s, Store(), old(root), root, k, t, old(node.parent));
    }

    /** `rb_set_red`, `rb_set_black` and `rb_set_color` on the node in focus. */
    method Paint(node: RbNode, red: bool, ghost k: Ctx, ghost t: Tree)
      requires t.Node? && At(k, t, node, node.parent)
      modifies node`red
      ensures At(k, t.(red := red), node, node.parent)
    {
      ghost var s := Store();
      node.red := red;
      assert Store() == s[node := s[node].(red := red)];
      PaintHolds(s, Store(), root, k, t, node.parent, red);
    }

    // ----- insertion ----------------------------------------------------------------------------

    method RecolorFamily(parent: RbNode, gparent: RbNode, uncle: RbNode)
      requires {parent, gparent, uncle} <= nodes && parent != gparent && gparent != uncle && uncle != parent
      modifies parent`red, gparent`red, uncle`red
      ensures Store() == old(Store())[parent := old(Store())[parent].(red := false)]
                                     [uncle := old(Store())[uncle].(red := false)]
                                     [gparent := old(Store())[gparent].(red := true)]
    {
      uncle.red := false;
      parent.red := false;
      gparent.red := true;
    }

    /** Red uncle: `parent` and `uncle` are the children of `gparent`, on either side. */
    method InsertRecolored(parent: RbNode, gparent: RbNode, uncle: RbNode, ghost g: Ctx, ghost gt: Tree)
      requires gt.Node? && gt.l.Node? && gt.r.Node? && At(g, gt, gparent, gparent.parent)
      requires (parent == gt.l.n && uncle == gt.r.n) || (parent == gt.r.n && uncle == gt.l.n)
      modifies nodes`red
      ensures At(g, Node(Blacken(gt.l), gparent, true, Blacken(gt.r)), gparent, gparent.parent)
    {
      ghost var s := Store();
      ChildPointers(s, root, g, gt, gparent, gparent.parent);
      RecolorFamily(parent, gparent, uncle);
      RecolorHolds(s, Store(), root, g, gt, gparent.parent);
    }

    /** Black uncle on the right: the red node hangs outside its red parent. */
    method InsertOuterLeft(node: RbNode, parent: RbNode, gparent: RbNode, ghost k: Ctx, ghost t: Tree, ghost h: nat)
      returns (ghost k': Ctx)
      requires Inserting(k, t, h) && !k.Top? && k.red && !k.up.Top? && !k.up.red && k.InLeft? && k.up.InLeft? && !IsRed(k.up.r)
      requires At(k, t, node, node.parent) && parent == k.n && gparent == k.up.n
      modifies this`root, nodes
      ensures At(k', t, node, node.parent) && CtxRB(k', h, true)
      ensures Sequence(k', t) == Sequence(k, t) && Depth(k') < Depth(k)
    {
      FocusUp(Store(), root, k, t, node, node.parent);
      ghost var pt := Fill(k, t);
      Paint(parent, false, k.up, pt);
      FocusUp(Store(), root, k.up, Blacken(pt), parent, parent.parent);
      Paint(gparent, true, k.up.up, Node(Blacken(pt), gparent, false, k.up.r));
      RotateRightAt(gparent, k.up.up, Node(Blacken(pt), gparent, true, k.up.r));
      k' := InLeft(k.up.up, k.n, false, Node(k.r, k.up.n, true, k.up.r));
      FocusLeft(Store(), root, k.up.up, Fill(k', t), parent, parent.parent);
      InsertOuter(k, t, h, k');
    }

    /** The parent is a left child and its sibling is not red. */
    method InsertRotatedLeft(node0: RbNode, parent0: RbNode, gparent: RbNode, ghost k0: Ctx, ghost t0: Tree, ghost h: nat)
      returns (node: RbNode, ghost k: Ctx, ghost t: Tree)
      requires Inserting(k0, t0, h) && !k0.Top? && k0.red && k0.up.InLeft? && !IsRed(k0.up.r)
      requires At(k0, t0, node0, node0.parent) && parent0 == k0.n && gparent == k0.up.n
      modifies this`root, nodes
      ensures At(k, t, node, node.parent) && IsRed(t) && RB(t, h) && CtxRB(k, h, true)
      ensures Sequence(k, t) == Sequence(k0, t0) && Depth(k) < Depth(k0)
    {
      var parent := parent0;
      node, k, t := node0, k0, t0;
      InsertingParentRed(k, t, h);
      FocusUp(Store(), root, k, t, node, node.parent);
      if parent.right == node {
        RotateLeftAt(parent, k.up, Fill(k, t));
        ghost var rot := RotL(Fill(k, t));
        FocusLeft(Store(), root, k.up, rot, rot.n, gparent);
        InsertInner(k, t, h, InLeft(k.up, t.n, t.red, t.r), rot.l);
        k, t := InLeft(k.up, t.n, t.red, t.r), rot.l;
        var tmp := parent;
        parent := node;
        node := tmp;
      }
      k := InsertOuterLeft(node, parent, gparent, k, t, h);
    }

    /** Black uncle on the left: the red node hangs outside its red parent. */
    method InsertOuterRight(node: RbNode, parent: RbNode, gparent: RbNode, ghost k: Ctx, ghost t: Tree, ghost h: nat)
      returns (ghost k': Ctx)
      requires Inserting(k, t, h) && !k.Top? && k.red && !k.up.Top? && !k.up.red && k.InRight? && k.up.InRight? && !IsRed(k.up.l)
      requires At(k, t, node, node.parent) && parent == k.n && gparent == k.up.n
      modifies this`root, nodes
      ensures At(k', t, node, node.parent) && CtxRB(k', h, true)
      ensures Sequence(k', t) == Sequence(k, t) && Depth(k') < Depth(k)
    {
      FocusUp(Store(), root, k, t, node, node.parent);
      ghost var pt := Fill(k, t);
      Paint(parent, false, k.up, pt);
      FocusUp(Store(), root, k.up, Blacken(pt), parent, parent.parent);
      Paint(gparent, true, k.up.up, Node(k.up.l, gparent, false, Blacken(pt)));
      RotateLeftAt(gparent, k.up.up, Node(k.up.l, gparent, true, Blacken(pt)));
      k' := InRight(Node(k.up.l, k.up.n, true, k.l), k.n, false, k.up.up);
      FocusRight(Store(), root, k.up.up, Fill(k', t), parent, parent.parent);
      InsertOuter(k, t, h, k');
    }

    /** The parent is a right child and its sibling is not red. */
    method InsertRotatedRight(node0: RbNode, parent0: RbNode, gparent: RbNode, ghost k0: Ctx, ghost t0: Tree, ghost h: nat)
      returns (node: RbNode, ghost k: Ctx, ghost t: Tree)
      requires Inserting(k0, t0, h) && !k0.Top? && k0.red && k0.up.InRight? && !IsRed(k0.up.l)
      requires At(k0, t0, node0, node0.parent) && parent0 == k0.n && gparent == k0.up.n
      modifies this`root, nodes
      ensures At(k, t, node, node.parent) && IsRed(t) && RB(t, h) && CtxRB(k, h, true)
      ensures Sequence(k, t) == Sequence(k0, t0) && Depth(k) < Depth(k0)
    {
      var parent := parent0;
      node, k, t := node0, k0, t0;
      InsertingParentRed(k, t, h);
      FocusUp(Store(), root, k, t, node, node.parent);
      if parent.left == node {
        RotateRightAt(parent, k.up, Fill(k, t));
        ghost var rot := RotR(Fill(k, t));
        FocusRight(Store(), root, k.up, rot, rot.n, gparent);
        InsertInner(k, t, h, InRight(t.l, t.n, t.red, k.up), rot.r);
        k, t := InRight(t.l, t.n, t.red, k.up), rot.r;
        var tmp := parent;
        parent := node;
        node := tmp;
      }
      k := InsertOuterRight(node, parent, gparent, k, t, h);
    }

    method InsertRepaint(node: RbNode, parent: RbNode, gparent: RbNode, uncle: RbNode, ghost k: Ctx, ghost f: Tree) returns (ghost f': Tree)
      requires !k.Top? && k.red && !k.up.Top? && IsRed(Sibling(k.up)) && uncle == Sibling(k.up).n
      requires At(k, f, node, parent) && parent == k.n && gparent == k.up.n
      modifies nodes`red
      ensures gparent in nodes && At(k.up.up, f', gparent, gparent.parent)
      ensures f' == if k.up.InLeft? then Node(Blacken(Fill(k, f)), gparent, true, Blacken(k.up.r))
                    else Node(Blacken(k.up.l), gparent, true, Blacken(Fill(k, f)))
    {
      ghost var pt := Fill(k, f);
      FocusGrandparent(Store(), root, k, f, node, parent);
      InsertRecolored(parent, gparent, uncle, k.up.up, Fill(k.up, pt));
      f' := if k.up.InLeft? then Node(Blacken(pt), gparent, true, Blacken(k.up.r))
            else Node(Blacken(k.up.l), gparent, true, Blacken(pt));
    }

    method InsertUncleRed(node: RbNode, parent: RbNode, gparent: RbNode, uncle: RbNode, ghost k: Ctx, ghost f: Tree, ghost h: nat)
      returns (ghost k': Ctx, ghost f': Tree, ghost h': nat)
      requires Inserting(k, f, h) && !k.Top? && k.red && !k.up.Top? && IsRed(Sibling(k.up)) && uncle == Sibling(k.up).n
      requires At(k, f, node, parent) && parent == k.n && gparent == k.up.n
      modifies nodes`red
      ensures gparent in nodes && At(k', f', gparent, gparent.parent) && Inserting(k', f', h')
      ensures Sequence(k', f') == Sequence(k, f) && Depth(k') < Depth(k)
    {
      k', h' := k.up.up, h + 1;
      f' := InsertRepaint(node, parent, gparent, uncle, k, f);
      InsertRecolor(k, f, h, f');
    }

    /** One round of the loop with the parent on the left of the grandparent. */
    method InsertStepLeft(node: RbNode, parent: RbNode, gparent: RbNode, ghost k: Ctx, ghost f: Tree, ghost h: nat)
      returns (node': RbNode, ghost k': Ctx, ghost f': Tree, ghost h': nat)
      requires Inserting(k, f, h) && !k.Top? && k.red && k.up.InLeft?
      requires At(k, f, node, parent) && node.parent == parent && parent == k.n && gparent == k.up.n
      modifies this`root, nodes
      ensures At(k', f', node', node'.parent) && node' in nodes && Inserting(k', f', h')
      ensures Sequence(k', f') == Sequence(k, f) && Depth(k') < Depth(k)
    {
      UnclePointer(Store(), root, k, f, node, parent);
      var uncle := gparent.right;
      if uncle != null && uncle.red {
        node' := gparent;
        k', f', h' := InsertUncleRed(node, parent, gparent, uncle, k, f, h);
      } else {
        node', k', f' := InsertRotatedLeft(node, parent, gparent, k, f, h);
        h' := h;
      }
    }

    /** One round of the loop with the parent on the right of the grandparent. */
    method InsertStepRight(node: RbNode, parent: RbNode, gparent: RbNode, ghost k: Ctx, ghost f: Tree, ghost h: nat)
      returns (node': RbNode, ghost k': Ctx, ghost f': Tree, ghost h': nat)
      requires Inserting(k, f, h) && !k.Top? && k.red && k.up.InRight?
      requires At(k, f, node, parent) && node.parent == parent && parent == k.n && gparent == k.up.n
      modifies this`root, nodes
      ensures At(k', f', node', node'.parent) && node' in nodes && Inserting(k', f', h')
      ensures Sequence(k', f') == Sequence(k, f) && Depth(k') < Depth(k)
    {
      UnclePointer(Store(), root, k, f, node, parent);
      var uncle := gparent.left;
      if uncle != null && uncle.red {
        node' := gparent;
        k', f', h' := InsertUncleRed(node, parent, gparent, uncle, k, f, h);
      } else {
        node', k', f' := InsertRotatedRight(node, parent, gparent, k, f, h);
        h' := h;
      }
    }

    /** One round of the loop of `rb_insert_color`. */
    method InsertStep(node: RbNode, parent: RbNode, ghost k: Ctx, ghost f: Tree, ghost h: nat)
      returns (node': RbNode, ghost k': Ctx, ghost f': Tree, ghost h': nat)
      requires Inserting(k, f, h) && !k.Top? && k.red && At(k, f, node, parent) && node.parent == parent
      modifies this`root, nodes
      ensures At(k', f', node', node'.parent) && node' in nodes && Inserting(k', f', h')
      ensures Sequence(k', f') == Sequence(k, f) && Depth(k') < Depth(k)
    {
      FocusUp(Store(), root, k, f, node, parent);
      InsertingParentRed(k, f, h);
      var gparent := parent.parent;
      HolePointers(Store(), root, k.up, Fill(k, f), parent, gparent);
      if parent == gparent.left {
        node', k', f', h' := InsertStepLeft(node, parent, gparent, k, f, h);
      } else {
        node', k', f', h' := InsertStepRight(node, parent, gparent, k, f, h);
      }
    }

    /** The statement after the loop. */
    method InsertFinish(node: RbNode, ghost k: Ctx, ghost f: Tree, ghost h: nat) returns (ghost t: Tree)
      requires Inserting(k, f, h) && At(k, f, node, node.parent) && (k.Top? || !k.red)
      modifies nodes`red
      ensures At(Top, t, root, null) && Balanced(t) && Inorder(t) == Sequence(k, f)
    {
      FocusTop(Store(), root, k, f, node, node.parent);
      t := Plug(k, f);
      InsertedBalanced(k, f, h);
      HolePointers(Store(), root, Top, t, root, null);
      Paint(root, false, Top, t);
      t := Blacken(t);
    }

    /** `rb_insert_color`: `t` is the tree it leaves behind. */
    method InsertColor(node0: RbNode, ghost k0: Ctx, ghost t0: Tree, ghost h0: nat) returns (ghost t: Tree)
      requires Inserting(k0, t0, h0) && At(k0, t0, node0, node0.parent)
      modifies this`root, nodes
      ensures At(Top, t, root, null) && Balanced(t) && Inorder(t) == Sequence(k0, t0)
    {
      var node := node0;
      ghost var k, f, h := k0, t0, h0;
      ParentPointer(Store(), root, k, f, node, node.parent);
      while node.parent != null && node.parent.red
        invariant node in nodes && At(k, f, node, node.parent) && Inserting(k, f, h)
        invariant if k.Top? then node.parent == null else node.parent == k.n && k.n in nodes && k.n.red == k.red
        invariant Sequence(k, f) == Sequence(k0, t0)
        decreases Depth(k)
      {
        node, k, f, h := InsertStep(node, node.parent, k, f, h);
        ParentPointer(Store(), root, k, f, node, node.parent);
      }
      t := InsertFinish(node, k, f, h);
    }

    // ----- erasure ------------------------------------------------------------------------------

    /** Red sibling, with the focus on the left: `other` is what the sibling becomes. */
    method EraseRedSiblingLeft(node: RbNode?, parent: RbNode, other0: RbNode, ghost k: Ctx, ghost t: Tree, ghost h: nat)
      returns (other: RbNode, ghost k': Ctx)
      requires Erasing(k, t, h) && !IsRed(t) && k.InLeft? && IsRed(k.r) && other0 == k.r.n && parent == k.n
      requires At(k, t, node, parent)
      modifies this`root, nodes
      ensures k' == InLeft(InLeft(k.up, k.r.n, false, k.r.r), k.n, true, k.r.l)
      ensures At(k', t, node, parent) && Erasing(k', t, h) && Sequence(k', t) == Sequence(k, t)
      ensures Sibling(k').Node? && !Sibling(k').red && other == Sibling(k').n
    {
      FocusAcross(Store(), root, k, t, node, parent);
      Paint(other0, false, Across(k, t), k.r);
      FocusUp(Store(), root, Across(k, t), Blacken(k.r), other0, parent);
      Paint(parent, true, k.up, Node(t, k.n, k.red, Blacken(k.r)));
      RotateLeftAt(parent, k.up, Node(t, k.n, true, Blacken(k.r)));
      k' := InLeft(InLeft(k.up, k.r.n, false, k.r.r), k.n, true, k.r.l);
      FocusLeft(Store(), root, k.up, Fill(k'.up, Fill(k', t)), other0, other0.parent);
      FocusLeft(Store(), root, k'.up, Fill(k', t), parent, other0);
      EraseRedSibling(k, t, h, k');
      ErasingSibling(k', t, h);
      other := parent.right;
    }

    /** Only the inner nephew is red. */
    method EraseInnerNephewLeft(node: RbNode?, parent: RbNode, other0: RbNode, ghost k: Ctx, ghost t: Tree, ghost h: nat)
      returns (other: RbNode, ghost k': Ctx)
      requires Erasing(k, t, h) && !IsRed(t) && k.InLeft? && k.r.Node? && !k.r.red && IsRed(k.r.l) && !IsRed(k.r.r)
      requires At(k, t, node, parent) && other0 == k.r.n && parent == k.n
      modifies this`root, nodes
      ensures k' == InLeft(k.up, k.n, k.red, Node(k.r.l.l, k.r.l.n, false, Node(k.r.l.r, k.r.n, true, k.r.r)))
      ensures At(k', t, node, parent) && Erasing(k', t, h) && Sequence(k', t) == Sequence(k, t)
      ensures other == Sibling(k').n
    {
      ghost var a := Across(k, t);
      FocusAcross(Store(), root, k, t, node, parent);
      FocusLeft(Store(), root, a, k.r, other0, parent);
      ghost var ki := InLeft(a, k.r.n, k.r.red, k.r.r);
      var inner := other0.left;
      if inner != null {
        Paint(inner, false, ki, k.r.l);
      }
      FocusUp(Store(), root, ki, Blacken(k.r.l), inner, other0);
      ghost var sib := Fill(ki, Blacken(k.r.l));
      Paint(other0, true, a, sib);
      RotateRightAt(other0, a, sib.(red := true));
      k' := InLeft(k.up, k.n, k.red, Node(k.r.l.l, k.r.l.n, false, Node(k.r.l.r, k.r.n, true, k.r.r)));
      FocusAcross(Store(), root, a, k'.r, k'.r.n, parent);
      EraseInnerNephew(k, t, h, k');
      other := parent.right;
    }

    /** The colours around the last rotation. */
    method EraseRepaintLeft(parent: RbNode, other: RbNode, ghost k: Ctx, ghost pt: Tree)
      requires pt.Node? && pt.r.Node? && pt.r.r.Node? && At(k, pt, parent, parent.parent) && other == pt.r.n
      modifies nodes`red
      ensures At(k, Node(pt.l, pt.n, false, Node(pt.r.l, other, pt.red, Blacken(pt.r.r))), parent, parent.parent)
    {
      FocusRight(Store(), root, k, pt, parent, parent.parent);
      ghost var k1 := InRight(pt.l, pt.n, pt.red, k);
      Paint(other, parent.red, k1, pt.r);
      ghost var sib := pt.r.(red := pt.red);
      FocusUp(Store(), root, k1, sib, other, parent);
      Paint(parent, false, k, Fill(k1, sib));
      ghost var k2 := InRight(pt.l, pt.n, false, k);
      FocusRight(Store(), root, k, Fill(k2, sib), parent, parent.parent);
      FocusRight(Store(), root, k2, sib, other, parent);
      ghost var ko := InRight(sib.l, sib.n, sib.red, k2);
      if other.right != null {
        Paint(other.right, false, ko, sib.r);
      }
      FocusUp(Store(), root, ko, Blacken(sib.r), other.right, other);
      FocusUp(Store(), root, k2, Fill(ko, Blacken(sib.r)), other, parent);
    }

    method EraseLastRotationLeft(node: RbNode?, parent: RbNode, other: RbNode, ghost k: Ctx, ghost t: Tree)
      requires k.InLeft? && k.r.Node? && !k.r.red && IsRed(k.r.r) && At(k, t, node, parent) && other == k.r.n && parent == k.n
      modifies this`root, nodes
      ensures At(k.up, Node(Node(t, k.n, false, k.r.l), k.r.n, k.red, Blacken(k.r.r)), other, other.parent)
    {
      FocusUp(Store(), root, k, t, node, parent);
      EraseRepaintLeft(parent, other, k.up, Fill(k, t));
      RotateLeftAt(parent, k.up, Node(t, k.n, false, Node(k.r.l, other, k.red, Blacken(k.r.r))));
    }

    /** The outer nephew is red: the last rotation. */
    method EraseOuterNephewLeft(node: RbNode?, parent: RbNode, other: RbNode, ghost k: Ctx, ghost t: Tree, ghost h: nat)
      returns (ghost t': Tree)
      requires Erasing(k, t, h) && !IsRed(t) && k.InLeft? && k.r.Node? && !k.r.red && IsRed(k.r.r)
      requires At(k, t, node, parent) && other == k.r.n && parent == k.n
      modifies this`root, nodes
      ensures At(Top, t', root, null) && Balanced(t') && Inorder(t') == Sequence(k, t)
    {
      t' := Node(Node(t, k.n, false, k.r.l), k.r.n, k.red, Blacken(k.r.r));
      EraseOuterNephew(k, t, h, t');
      EraseLastRotationLeft(node, parent, other, k, t);
      FocusTop(Store(), root, k.up, t', other, other.parent);
      t' := Plug(k.up, t');
    }

    /** The rest of a round of the loop, when the sibling is black. */
    method EraseBlackSiblingLeft(node: RbNode?, parent: RbNode, other0: RbNode, ghost k: Ctx, ghost t: Tree, ghost h: nat)
      returns (done: bool, ghost t': Tree)
      requires Erasing(k, t, h) && !IsRed(t) && k.InLeft? && k.r.Node? && !k.r.red
      requires At(k, t, node, parent) && parent == k.n && other0 == k.r.n
      modifies this`root, nodes
      ensures done ==> At(Top, t', root, null) && Balanced(t') && Inorder(t') == Sequence(k, t)
      ensures !done ==> At(k.up, t', parent, parent.parent) && IsRed(t') == k.red
      ensures !done ==> Erasing(k.up, t', if k.red then h else h + 1) && Sequence(k.up, t') == Sequence(k, t)
    {
      var other := other0;
      FocusAcross(Store(), root, k, t, node, parent);
      ChildPointers(Store(), root, Across(k, t), k.r, other, parent);
      if (other.left == null || !other.left.red) && (other.right == null || !other.right.red) {
        t' := EraseBlackNephewsAt(node, parent, other, k, t, h);
        done := false;
      } else {
        ghost var k' := k;
        if other.right == null || !other.right.red {
          other, k' := EraseInnerNephewLeft(node, parent, other, k, t, h);
        }
        t' := EraseOuterNephewLeft(node, parent, other, k', t, h);
        done := true;
      }
    }

    /** One round of the loop, with the focus on the left; `done` is the `break`. */
    method EraseStepLeft(node: RbNode?, parent: RbNode, ghost k: Ctx, ghost t: Tree, ghost h: nat)
      returns (done: bool, ghost k': Ctx, ghost t': Tree, ghost h': nat)
      requires Erasing(k, t, h) && !IsRed(t) && k.InLeft? && At(k, t, node, parent) && parent == k.n
      modifies this`root, nodes
      ensures Erasing(k', t', h') && Sequence(k', t') == Sequence(k, t)
      ensures if done then k' == Top && At(k', t', root, null) else At(k', t', parent, parent.parent)
      ensures !done ==> 2 * Depth(k') + (if IsRed(t') then 0 else 1) <= 2 * Depth(k)
    {
      k' := k;
      ErasingSibling(k, t, h);
      FocusAcross(Store(), root, k, t, node, parent);
      var other := parent.right;
      if other.red {
        other, k' := EraseRedSiblingLeft(node, parent, other, k, t, h);
      }
      done, t' := EraseBlackSiblingLeft(node, parent, other, k', t, h);
      if done {
        k' := Top;
        h' := BalancedErasing(t');
      } else {
        k', h' := k'.up, if k'.red then h else h + 1;
      }
    }

    /** Red sibling, with the focus on the right: `other` is what the sibling becomes. */
    method EraseRedSiblingRight(node: RbNode?, parent: RbNode, other0: RbNode, ghost k: Ctx, ghost t: Tree, ghost h: nat)
      returns (other: RbNode, ghost k': Ctx)
      requires Erasing(k, t, h) && !IsRed(t) && k.InRight? && IsRed(k.l) && other0 == k.l.n && parent == k.n
      requires At(k, t, node, parent)
      modifies this`root, nodes
      ensures k' == InRight(k.l.r, k.n, true, InRight(k.l.l, k.l.n, false, k.up))
      ensures At(k', t, node, parent) && Erasing(k', t, h) && Sequence(k', t) == Sequence(k, t)
      ensures Sibling(k').Node? && !Sibling(k').red && other == Sibling(k').n
    {
      FocusAcross(Store(), root, k, t, node, parent);
      Paint(other0, false, Across(k, t), k.l);
      FocusUp(Store(), root, Across(k, t), Blacken(k.l), other0, parent);
      Paint(parent, true, k.up, Node(Blacken(k.l), k.n, k.red, t));
      RotateRightAt(parent, k.up, Node(Blacken(k.l), k.n, true, t));
      k' := InRight(k.l.r, k.n, true, InRight(k.l.l, k.l.n, false, k.up));
      FocusRight(Store(), root, k.up, Fill(k'.up, Fill(k', t)), other0, other0.parent);
      FocusRight(Store(), root, k'.up, Fill(k', t), parent, other0);
      EraseRedSibling(k, t, h, k');
      ErasingSibling(k', t, h);
      other := parent.left;
    }

    /** Only the inner nephew is red. */
    method EraseInnerNephewRight(node: RbNode?, parent: RbNode, other0: RbNode, ghost k: Ctx, ghost t: Tree, ghost h: nat)
      returns (other: RbNode, ghost k': Ctx)
      requires Erasing(k, t, h) && !IsRed(t) && k.InRight? && k.l.Node? && !k.l.red && IsRed(k.l.r) && !IsRed(k.l.l)
      requires At(k, t, node, parent) && other0 == k.l.n && parent == k.n
      modifies this`root, nodes
      ensures k' == InRight(Node(Node(k.l.l, k.l.n, true, k.l.r.l), k.l.r.n, false, k.l.r.r), k.n, k.red, k.up)
      ensures At(k', t, node, parent) && Erasing(k', t, h) && Sequence(k', t) == Sequence(k, t)
      ensures other == Sibling(k').n
    {
      ghost var a := Across(k, t);
      FocusAcross(Store(), root, k, t, node, parent);
      FocusRight(Store(), root, a, k.l, other0, parent);
      ghost var ki := InRight(k.l.l, k.l.n, k.l.red, a);
      var inner := other0.right;
      if inner != null {
        Paint(inner, false, ki, k.l.r);
      }
      FocusUp(Store(), root, ki, Blacken(k.l.r), inner, other0);
      ghost var sib := Fill(ki, Blacken(k.l.r));
      Paint(other0, true, a, sib);
      RotateLeftAt(other0, a, sib.(red := true));
      k' := InRight(Node(Node(k.l.l, k.l.n, true, k.l.r.l), k.l.r.n, false, k.l.r.r), k.n, k.red, k.up);
      FocusAcross(Store(), root, a, k'.l, k'.l.n, parent);
      EraseInnerNephew(k, t, h, k');
      other := parent.left;
    }

    /** The colours around the last rotation. */
    method EraseRepaintRight(parent: RbNode, other: RbNode, ghost k: Ctx, ghost pt: Tree)
      requires pt.Node? && pt.l.Node? && pt.l.l.Node? && At(k, pt, parent, parent.parent) && other == pt.l.n
      modifies nodes`red
      ensures At(k, Node(Node(Blacken(pt.l.l), other, pt.red, pt.l.r), pt.n, false, pt.r), parent, parent.parent)
    {
      FocusLeft(Store(), root, k, pt, parent, parent.parent);
      ghost var k1 := InLeft(k, pt.n, pt.red, pt.r);
      Paint(other, parent.red, k1, pt.l);
      ghost var sib := pt.l.(red := pt.red);
      FocusUp(Store(), root, k1, sib, other, parent);
      Paint(parent, false, k, Fill(k1, sib));
      ghost var k2 := InLeft(k, pt.n, false, pt.r);
      FocusLeft(Store(), root, k, Fill(k2, sib), parent, parent.parent);
      FocusLeft(Store(), root, k2, sib, other, parent);
      ghost var ko := InLeft(k2, sib.n, sib.red, sib.r);
      if other.left != null {
        Paint(other.left, false, ko, sib.l);
      }
      FocusUp(Store(), root, ko, Blacken(sib.l), other.left, other);
      FocusUp(Store(), root, k2, Fill(ko, Blacken(sib.l)), other, parent);
    }

    method EraseLastRotationRight(node: RbNode?, parent: RbNode, other: RbNode, ghost k: Ctx, ghost t: Tree)
      requires k.InRight? && k.l.Node? && !k.l.red && IsRed(k.l.l) && At(k, t, node, parent) && other == k.l.n && parent == k.n
      modifies this`root, nodes
      ensures At(k.up, Node(Blacken(k.l.l), k.l.n, k.red, Node(k.l.r, k.n, false, t)), other, other.parent)
    {
      FocusUp(Store(), root, k, t, node, parent);
      EraseRepaintRight(parent, other, k.up, Fill(k, t));
      RotateRightAt(parent, k.up, Node(Node(Blacken(k.l.l), other, k.red, k.l.r), k.n, false, t));
    }

    /** The outer nephew is red: the last rotation. */
    method EraseOuterNephewRight(node: RbNode?, parent: RbNode, other: RbNode, ghost k: Ctx, ghost t: Tree, ghost h: nat)
      returns (ghost t': Tree)
      requires Erasing(k, t, h) && !IsRed(t) && k.InRight? && k.l.Node? && !k.l.red && IsRed(k.l.l)
      requires At(k, t, node, parent) && other == k.l.n && parent == k.n
      modifies this`root, nodes
      ensures At(Top, t', root, null) && Balanced(t') && Inorder(t') == Sequence(k, t)
    {
      t' := Node(Blacken(k.l.l), k.l.n, k.red, Node(k.l.r, k.n, false, t));
      EraseOuterNephew(k, t, h, t');
      EraseLastRotationRight(node, parent, other, k, t);
      FocusTop(Store(), root, k.up, t', other, other.parent);
      t' := Plug(k.up, t');
    }

    /** The rest of a round of the loop, when the sibling is black. */
    method EraseBlackSiblingRight(node: RbNode?, parent: RbNode, other0: RbNode, ghost k: Ctx, ghost t: Tree, ghost h: nat)
      returns (done: bool, ghost t': Tree)
      requires Erasing(k, t, h) && !IsRed(t) && k.InRight? && k.l.Node? && !k.l.red
      requires At(k, t, node, parent) && parent == k.n && other0 == k.l.n
      modifies this`root, nodes
      ensures done ==> At(Top, t', root, null) && Balanced(t') && Inorder(t') == Sequence(k, t)
      ensures !done ==> At(k.up, t', parent, parent.parent) && IsRed(t') == k.red
      ensures !done ==> Erasing(k.up, t', if k.red then h else h + 1) && Sequence(k.up, t') == Sequence(k, t)
    {
      var other := other0;
      FocusAcross(Store(), root, k, t, node, parent);
      ChildPointers(Store(), root, Across(k, t), k.l, other, parent);
      if (other.left == null || !other.left.red) && (other.right == null || !other.right.red) {
        t' := EraseBlackNephewsAt(node, parent, other, k, t, h);
        done := false;
      } else {
        ghost var k' := k;
        if other.left == null || !other.left.red {
          other, k' := EraseInnerNephewRight(node, parent, other, k, t, h);
        }
        t' := EraseOuterNephewRight(node, parent, other, k', t, h);
        done := true;
      }
    }

    /** One round of the loop, with the focus on the right; `done` is the `break`. */
    method EraseStepRight(node: RbNode?, parent: RbNode, ghost k: Ctx, ghost t: Tree, ghost h: nat)
      returns (done: bool, ghost k': Ctx, ghost t': Tree, ghost h': nat)
      requires Erasing(k, t, h) && !IsRed(t) && k.InRight? && At(k, t, node, parent) && parent == k.n
      modifies this`root, nodes
      ensures Erasing(k', t', h') && Sequence(k', t') == Sequence(k, t)
      ensures if done then k' == Top && At(k', t', root, null) else At(k', t', parent, parent.parent)
      ensures !done ==> 2 * Depth(k') + (if IsRed(t') then 0 else 1) <= 2 * Depth(k)
    {
      k' := k;
      ErasingSibling(k, t, h);
      FocusAcross(Store(), root, k, t, node, parent);
      var other := parent.left;
      if other.red {
        other, k' := EraseRedSiblingRight(node, parent, other, k, t, h);
      }
      done, t' := EraseBlackSiblingRight(node, parent, other, k', t, h);
      if done {
        k' := Top;
        h' := BalancedErasing(t');
      } else {
        k', h' := k'.up, if k'.red then h else h + 1;
      }
    }

    /** Both nephews are black: the sibling turns red and the focus moves to the parent. */
    method EraseBlackNephewsAt(node: RbNode?, parent: RbNode, other: RbNode, ghost k: Ctx, ghost t: Tree, ghost h: nat)
      returns (ghost t': Tree)
      requires Erasing(k, t, h) && !IsRed(t) && !k.Top?
      requires Sibling(k).Node? && !Sibling(k).red && !IsRed(Inner(k)) && !IsRed(Outer(k))
      requires At(k, t, node, parent) && other == Sibling(k).n && parent == k.n
      modifies other`red
      ensures At(k.up, t', parent, parent.parent) && IsRed(t') == k.red
      ensures Erasing(k.up, t', if k.red then h else h + 1) && Sequence(k.up, t') == Sequence(k, t)
    {
      FocusAcross(Store(), root, k, t, node, parent);
      Paint(other, true, Across(k, t), Sibling(k));
      FocusUp(Store(), root, Across(k, t), Sibling(k).(red := true), other, parent);
      t' := Fill(WithSibling(k, Sibling(k).(red := true)), t);
      EraseBlackNephews(k, t, h, t');
    }

    /** The statement after the loop. */
    method EraseFinish(node: RbNode?, parent: RbNode?, ghost k: Ctx, ghost f: Tree, ghost h: nat) returns (ghost t: Tree)
      requires Erasing(k, f, h) && At(k, f, node, parent) && (IsRed(f) || k.Top?)
      modifies nodes`red
      ensures At(Top, t, root, null) && Balanced(t) && Inorder(t) == Sequence(k, f)
    {
      ErasedBalanced(k, f, h);
      if node != null {
        Paint(node, false, k, f);
      }
      FocusTop(Store(), root, k, Blacken(f), node, parent);
      t := Plug(k, Blacken(f));
    }

    /** `__rb_erase_color`: `t` is the tree it leaves behind. */
    method EraseColor(node0: RbNode?, parent0: RbNode?, ghost k0: Ctx, ghost t0: Tree, ghost h0: nat) returns (ghost t: Tree)
      requires Erasing(k0, t0, h0) && At(k0, t0, node0, parent0)
      modifies this`root, nodes
      ensures At(Top, t, root, null) && Balanced(t) && Inorder(t) == Sequence(k0, t0)
    {
      var node, parent := node0, parent0;
      ghost var k, f, h := k0, t0, h0;
      while (node == null || !node.red) && node != root
        invariant node != null ==> node in nodes
        invariant At(k, f, node, parent) && Erasing(k, f, h) && Sequence(k, f) == Sequence(k0, t0)
        decreases 2 * Depth(k) + if IsRed(f) then 0 else 1
      {
        RootPointer(Store(), root, k, f, node, parent);
        ErasingSibling(k, f, h);
        FocusSide(Store(), root, k, f, node, parent);
        var done;
        if parent.left == node {
          done, k, f, h := EraseStepLeft(node, parent, k, f, h);
        } else {
          done, k, f, h := EraseStepRight(node, parent, k, f, h);
        }
        if done {
          node, parent := root, null;
          break;
        }
        node := parent;
        parent := node.parent;
      }
      RootPointer(Store(), root, k, f, node, parent);
      t := EraseFinish(node, parent, k, f, h);
    }

    /** The parent of `from`, or the root, gets `to` for a child instead. */
    method ReplaceChild(parent: RbNode?, from: RbNode, to: RbNode?)
      modifies this`root, Opt(parent)`left, Opt(parent)`right
      ensures if parent == null then root == to else root == old(root)
      ensures parent != null ==> parent.left == if old(parent.left) == from then to else old(parent.left)
      ensures parent != null ==> parent.right == if old(parent.left) == from then old(parent.right) else to
    {
      if parent != null {
        if parent.left == from {
          parent.left := to;
        } else {
          parent.right := to;
        }
      } else {
        root := to;
      }
    }

    /** The links `rb_erase` writes for a node with at most one child. */
    method UnlinkRaw(node: RbNode, child: RbNode?)
      requires node in nodes && (child != null ==> child in nodes && child != node && child != node.parent)
      requires node.parent != null ==> node.parent in nodes && node.parent != node
      modifies this, nodes
      ensures nodes == old(nodes) - {node} && node.red == old(node.red)
      ensures Unlinked(old(Store()), Store(), old(root), root, node, child)
    {
      var parent := node.parent;
      if child != null {
        child.parent := parent;
      }
      ReplaceChild(parent, node, child);
      nodes := nodes - {node};
    }

    /** The links it writes for a successor `node` of `old'` that gives up its place. */
    method UnlinkSuccessorRaw(node: RbNode, child: RbNode?, parent: RbNode, old': RbNode)
      requires node in nodes && (child != null ==> child in nodes && child != node && child != node.parent)
      requires parent == node.parent && parent in nodes && parent != node
      requires if parent == old' then parent.left != node else parent.left == node
      modifies this`nodes, nodes
      ensures nodes == old(nodes) - {node} && node.red == old(node.red)
      ensures Unlinked(old(Store()), Store(), root, root, node, child)
    {
      if child != null {
        child.parent := parent;
      }
      if parent == old' {
        parent.right := child;
      } else {
        parent.left := child;
      }
      nodes := nodes - {node};
    }

    /** The first half of the links it writes to put `node` in the place of `old'`: the cell is
        copied, and the parent gets the new child. */
    method TakePlace(old': RbNode, node: RbNode)
      requires old' in nodes && node !in nodes && Opt(old'.parent) <= nodes - {old'}
      modifies this`root, node, Opt(old'.parent)
      ensures Cell(node.left, node.right, node.parent, node.red) == old(Store())[old']
      ensures Placed(old(Store()), Store(), old(root), root, old', node)
    {
      node.parent := old'.parent;
      node.red := old'.red;
      node.right := old'.right;
      node.left := old'.left;
      ReplaceChild(old'.parent, old', node);
    }

    /** The second half: the children get the new parent. */
    method Adopt(node: RbNode, left: RbNode, right: RbNode?)
      requires left in nodes && Opt(right) <= nodes && left != right
      modifies {left}`parent, Opt(right)`parent
      ensures Adopted(old(Store()), Store(), node, left, right)
    {
      left.parent := node;
      if right != null {
        right.parent := node;
      }
    }

    /** Both halves of the links, with the tree's set of nodes as it was. */
    method WriteLinks(old': RbNode, node: RbNode) returns (ghost s1: Store)
      requires old' in nodes && node !in nodes && old'.left != null
      requires Opt(old'.parent) + Opt(old'.left) + Opt(old'.right) <= nodes - {old'} && old'.left != old'.right
      modifies this`root, node, Opt(old'.parent), Opt(old'.left), Opt(old'.right)
      ensures Cell(node.left, node.right, node.parent, node.red) == old(Store())[old']
      ensures Placed(old(Store()), s1, old(root), root, old', node)
      ensures Adopted(s1, Store(), node, old(old'.left), old(old'.right))
    {
      TakePlace(old', node);
      s1 := Store();
      Adopt(node, old'.left, old'.right);
    }

    /** `y` is one of the nodes from now on, `x` no more. */
    ghost method Exchange(x: RbNode, y: RbNode)
      requires y !in nodes
      modifies this`nodes
      ensures nodes == old(nodes) - {x} + {y} && y in Store() && Store()[y] == Cell(y.left, y.right, y.parent, y.red)
      ensures Same(old(Store()), Store(), old(nodes) - {x})
    {
      nodes := nodes - {x} + {y};
    }

    method SubstituteRaw(old': RbNode, node: RbNode)
      requires old' in nodes && node !in nodes && old'.left != null
      requires Opt(old'.parent) + Opt(old'.left) + Opt(old'.right) <= nodes - {old'}
      requires Opt(old'.parent) !! Opt(old'.left) + Opt(old'.right) && old'.left != old'.right
      modifies this, nodes, node
      ensures nodes == old(nodes) - {old'} + {node}
      ensures Substituted(old(Store()), Store(), old(root), root, old', node)
    {
      ghost var s := Store();
      ghost var s1 := WriteLinks(old', node);
      ghost var s2 := Store();
      Exchange(old', node);
      BothHalves(s, s1, s2, Store(), old(root), root, old', node);
    }

    method Unlink(node: RbNode, child: RbNode?, ghost k: Ctx, ghost t: Tree)
      requires t.Node? && node == t.n && At(k, t, node, node.parent) && (t.l.Leaf? || t.r.Leaf?)
      requires child == if t.l.Leaf? then node.right else node.left
      modifies this, nodes
      ensures nodes == old(nodes) - {node} && node.red == old(node.red)
      ensures At(k, OnlyChild(t), child, old(node.parent))
    {
      ghost var s := Store();
      ChildPointers(s, root, k, t, node, node.parent);
      HolePointers(s, root, k, t, node, node.parent);
      UnlinkRaw(node, child);
      UnlinkHolds(s, Store(), old(root), root, k, t, old(node.parent), child);
    }

    method UnlinkSuccessor(node: RbNode, child: RbNode?, parent: RbNode, old': RbNode, ghost k: Ctx, ghost t: Tree)
      requires t.Node? && node == t.n && At(k, t, node, parent) && t.l.Leaf? && !k.Top?
      requires child == node.right && (parent == old' <==> k.InRight?)
      modifies this`nodes, nodes
      ensures nodes == old(nodes) - {node} && node.red == old(node.red)
      ensures At(k, OnlyChild(t), child, parent)
    {
      ghost var s := Store();
      ChildPointers(s, root, k, t, node, parent);
      HolePointers(s, root, k, t, node, parent);
      UnlinkSuccessorRaw(node, child, parent, old');
      UnlinkHolds(s, Store(), root, root, k, t, parent, child);
    }

    method Substitute(old': RbNode, node: RbNode, ghost k: Ctx, ghost t: Tree)
      requires t.Node? && old' == t.n && At(k, t, old', old'.parent) && node !in nodes && t.l.Node?
      modifies this, nodes, node
      ensures nodes == old(nodes) - {old'} + {node}
      ensures At(k, Node(t.l, node, t.red, t.r), node, old(old'.parent))
    {
      ghost var s := Store();
      ChildPointers(s, root, k, t, old', old'.parent);
      HolePointers(s, root, k, t, old', old'.parent);
      SubstituteRaw(old', node);
      SubstituteHolds(s, Store(), old(root), root, k, t, old(old'.parent), node);
    }

    /** The walk of `rb_erase` to the leftmost node of the right subtree; `seg` is its path. */
    method FindSuccessor(old': RbNode, ghost k: Ctx, ghost t: Tree, ghost h: nat)
      returns (node: RbNode, ghost seg: Ctx, ghost f: Tree, ghost h': nat)
      requires t.Node? && t.r.Node? && old' == t.n && At(k, t, old', old'.parent) && Sound(k, t, h)
      ensures f.Node? && f.l.Leaf? && LeftSpine(seg) && t.r == Plug(seg, f)
      ensures node in nodes && At(Graft(seg, InRight(t.l, t.n, t.red, k)), f, node, node.parent)
      ensures Sound(Graft(seg, InRight(t.l, t.n, t.red, k)), f, h')
    {
      ghost var s, base, p := Store(), InRight(t.l, t.n, t.red, k), old';
      DescentStart(s, root, k, t, old'.parent, h);
      seg, f, h' := Top, t.r, Below(h, t.red);
      node := old'.right;
      while node.left != null
        invariant Descent(s, root, base, t.r, seg, f, node, p, h')
        decreases f
      {
        DescentStep(s, root, base, t.r, seg, f, node, p, h');
        p, seg, f, h' := node, InLeft(seg, f.n, f.red, f.r), f.l, Below(h', f.red);
        node := node.left;
      }
      HolePointers(s, root, Graft(seg, base), f, node, p);
    }

    /** `node` leaves its place as the successor of `old'`. */
    method SpliceOut(old': RbNode, node: RbNode, ghost k: Ctx, ghost t: Tree, ghost seg: Ctx, ghost f: Tree)
      returns (child: RbNode?, parent: RbNode)
      requires t.Node? && old' == t.n && f.Node? && f.l.Leaf? && LeftSpine(seg)
      requires node in nodes && At(Graft(seg, InRight(t.l, t.n, t.red, k)), f, node, node.parent)
      modifies this`nodes, nodes
      ensures nodes == old(nodes) - {node} && node.red == old(node.red)
      ensures old' in nodes && At(k, Node(t.l, t.n, t.red, Plug(seg, f.r)), old', old'.parent)
      ensures child == (if f.r.Leaf? then null else f.r.n) && parent == (if seg.Top? then old' else seg.n)
      ensures (seg.Top? <==> parent == old') && node != old'
    {
      ghost var base := InRight(t.l, t.n, t.red, k);
      GraftJoint(seg, base);
      HolePointers(Store(), root, Graft(seg, base), f, node, node.parent);
      child := node.right;
      parent := node.parent;
      UnlinkSuccessor(node, child, parent, old', Graft(seg, base), f);
      FocusPointer(Store(), root, Graft(seg, base), f.r, child, parent);
      GraftUp(Store(), root, seg, base, f.r, child, parent);
      FocusUp(Store(), root, base, Plug(seg, f.r), old'.right, old');
    }

    /** `node` takes the place of `old'`. */
    method SpliceIn(old': RbNode, node: RbNode, ghost k: Ctx, ghost t: Tree, ghost seg: Ctx, ghost sr: Tree, ghost child: RbNode?)
      returns (ghost parent: RbNode)
      requires t.Node? && t.l.Node? && old' == t.n && t.r == Plug(seg, sr) && node !in nodes
      requires At(k, t, old', old'.parent) && child == if sr.Leaf? then null else sr.n
      modifies this, nodes, node
      ensures nodes == old(nodes) - {old'} + {node}
      ensures At(Graft(seg, InRight(t.l, node, t.red, k)), sr, child, parent) && parent == if seg.Top? then node else seg.n
    {
      Substitute(old', node, k, t);
      FocusRight(Store(), root, k, Node(t.l, node, t.red, t.r), node, old(old'.parent));
      ghost var c, p := SplicedFocus(Store(), root, seg, InRight(t.l, node, t.red, k), sr, node.right, node);
      parent := if seg.Top? then node else seg.n;
    }

    /** Both halves; `child` and `parent` are the successor's former child and its parent. */
    method Splice(old': RbNode, node: RbNode, ghost k: Ctx, ghost t: Tree, ghost seg: Ctx, ghost f: Tree)
      returns (child: RbNode?, parent: RbNode)
      requires t.Node? && t.l.Node? && old' == t.n && f.Node? && f.l.Leaf? && LeftSpine(seg) && node == f.n
      requires node in nodes && At(Graft(seg, InRight(t.l, t.n, t.red, k)), f, node, node.parent)
      modifies this, nodes
      ensures nodes == old(nodes) - {old'}
      ensures At(Graft(seg, InRight(t.l, node, t.red, k)), f.r, child, parent)
    {
      child, parent := SpliceOut(old', node, k, t, seg, f);
      ghost var p := SpliceIn(old', node, k, Node(t.l, t.n, t.red, Plug(seg, f.r)), seg, f.r, child);
      if parent == old' {
        parent := node;
      }
    }

    /** The branch of `rb_erase` for a node with two children: its successor is found, taken out
        and put in its place. What is left is a focus on the successor's former child. */
    method SpliceSuccessor(old': RbNode, ghost k: Ctx, ghost t: Tree, ghost h: nat)
      returns (child: RbNode?, parent: RbNode, red: bool, ghost k': Ctx, ghost t': Tree, ghost h': nat)
      requires t.Node? && t.l.Node? && t.r.Node? && old' == t.n && At(k, t, old', old'.parent) && Sound(k, t, h)
      modifies this, nodes
      ensures nodes == old(nodes) - {old'} && At(k', t', child, parent)
      ensures if red then Sound(k', t', h') else Erasing(k', t', h')
      ensures Sequence(k', t') == Without(k, t)
    {
      ghost var seg, f;
      var node;
      node, seg, f, h' := FindSuccessor(old', k, t, h);
      k', t' := Graft(seg, InRight(t.l, f.n, t.red, k)), f.r;
      ChildPointers(Store(), root, Graft(seg, InRight(t.l, t.n, t.red, k)), f, node, node.parent);
      red := node.red;
      h' := SpliceBalance(seg, InRight(t.l, t.n, t.red, k), f, h');
      child, parent := Splice(old', node, k, t, seg, f);
    }

    /** `rb_erase` up to the label `color`, in the branch without a splice. */
    method TakeOut(node: RbNode, child: RbNode?, ghost k: Ctx, ghost t: Tree, ghost h: nat)
      returns (parent: RbNode?, red: bool, ghost h': nat)
      requires t.Node? && (t.l.Leaf? || t.r.Leaf?) && node == t.n && At(k, t, node, node.parent) && Sound(k, t, h)
      requires child == if t.l.Leaf? then node.right else node.left
      modifies this, nodes
      ensures nodes == old(nodes) - {node} && At(k, OnlyChild(t), child, parent)
      ensures if red then Sound(k, OnlyChild(t), h') else Erasing(k, OnlyChild(t), h')
      ensures Sequence(k, OnlyChild(t)) == Without(k, t)
    {
      ChildPointers(Store(), root, k, t, node, node.parent);
      UnlinkBalance(k, t, h);
      UnlinkSequence(k, t);
      parent, red := node.parent, node.red;
      h' := if t.red then h else h - 1;
      Unlink(node, child, k, t);
    }

    /** `rb_erase` from the label `color`. */
    method EraseRest(child: RbNode?, parent: RbNode?, red: bool, ghost k: Ctx, ghost t: Tree, ghost h: nat)
      returns (ghost t': Tree)
      requires At(k, t, child, parent) && if red then Sound(k, t, h) else Erasing(k, t, h)
      modifies this`root, nodes
      ensures At(Top, t', root, null) && Balanced(t') && Inorder(t') == Sequence(k, t)
    {
      if !red {
        t' := EraseColor(child, parent, k, t, h);
      } else {
        FocusTop(Store(), root, k, t, child, parent);
        PlugBalanced(k, t, h);
        PlugSequence(k, t);
        t' := Plug(k, t);
      }
    }

    /** `rb_erase` up to the label `color`. */
    method Detach(node: RbNode, ghost k: Ctx, ghost t: Tree, ghost h: nat)
      returns (child: RbNode?, parent: RbNode?, red: bool, ghost k': Ctx, ghost t': Tree, ghost h': nat)
      requires t.Node? && node == t.n && At(k, t, node, node.parent) && Sound(k, t, h)
      modifies this, nodes
      ensures nodes == old(nodes) - {node} && At(k', t', child, parent)
      ensures if red then Sound(k', t', h') else Erasing(k', t', h')
      ensures Sequence(k', t') == Without(k, t)
    {
      k', t' := k, OnlyChild(t);
      ChildPointers(Store(), root, k, t, node, node.parent);
      if node.left == null {
        child := node.right;
        parent, red, h' := TakeOut(node, child, k, t, h);
      } else if node.right == null {
        child := node.left;
        parent, red, h' := TakeOut(node, child, k, t, h);
      } else {
        child, parent, red, k', t', h' := SpliceSuccessor(node, k, t, h);
      }
    }

    /** `rb_erase`: `t'` is the tree it leaves behind. */
    method EraseNode(node: RbNode, ghost k: Ctx, ghost t: Tree, ghost h: nat) returns (ghost t': Tree)
      requires t.Node? && node == t.n && At(k, t, node, node.parent) && Sound(k, t, h)
      modifies this, nodes
      ensures nodes == old(nodes) - {node} && At(Top, t', root, null) && Balanced(t')
      ensures Inorder(t') == Without(k, t)
    {
      var child, parent, red;
      ghost var k', h';
      child, parent, red, k', t', h' := Detach(node, k, t, h);
      t' := EraseRest(child, parent, red, k', t', h');
    }

    // ----- the engine's operations on one tree ----------------------------------------------------

    /** A red-black tree: ordered, parent links consistent, root black, no red node with a red
        child, the same number of black nodes on every path. */
    ghost predicate Valid(cmp: (Key, Key) -> int)
      reads this, nodes
    {
      At(Top, tree, root, null) && Balanced(tree) && TotalOrder(cmp) && Descending(cmp, Inorder(tree))
    }

    ghost function Contents(): seq<Entry>
      reads this`tree
    {
      EntriesOf(Inorder(tree))
    }

    constructor ()
      ensures forall cmp :: TotalOrder(cmp) ==> Valid(cmp)
      ensures nodes == {} && Contents() == []
    {
      root, nodes, tree := null, {}, Leaf;
      new;
      assert RB(tree, 0);
    }

    /** The search loop: the node with the key, or the parent and side where it would hang.
        `k` is the path; it has no more nodes than the tree is high. */
    method Descend(cmp: (Key, Key) -> int, key: Key)
      returns (node: RbNode?, parent: RbNode?, right: bool, ghost k: Ctx, ghost t: Tree, ghost h: nat)
      requires Valid(cmp)
      ensures At(k, t, node, parent) && Sound(k, t, h) && Sequence(k, t) == Inorder(tree) && OnPath(cmp, key, k)
      ensures node == null ==> t.Leaf? && (!k.Top? ==> (right <==> k.InRight?))
      ensures node != null ==> t.Node? && node == t.n && node.parent == parent && node.key == key
      ensures Depth(k) + (if node == null then 0 else 1) <= Height(tree)
    {
      ghost var s := Store();
      node, parent, right, k, t := root, null, false, Top, tree;
      h :| RB(tree, h);
      while node != null
        invariant Walk(s, root, tree, cmp, key, k, t, node, parent, h)
        invariant !k.Top? ==> (right <==> k.InRight?)
        decreases t
      {
        ChildPointers(s, root, k, t, node, parent);
        HolePointers(s, root, k, t, node, parent);
        var diff := cmp(key, node.key);
        if diff == 0 {
          return;
        }
        if diff < 0 {
          WalkRight(s, root, tree, cmp, key, k, t, node, parent, h);
          k, t, h := InRight(t.l, t.n, t.red, k), t.r, Below(h, t.red);
          parent, node, right := node, node.right, true;
        } else {
          WalkLeft(s, root, tree, cmp, key, k, t, node, parent, h);
          k, t, h := InLeft(k, t.n, t.red, t.r), t.l, Below(h, t.red);
          parent, node, right := node, node.left, false;
        }
      }
    }

    /** The search that get, insert and remove share: a path of d nodes in a tree of n entries has
        2^d <= (n + 1)^2, so it is never longer than 2 * log2(n + 1). */
    method Search(cmp: (Key, Key) -> int, key: Key)
      returns (node: RbNode?, parent: RbNode?, right: bool, ghost k: Ctx, ghost t: Tree, ghost h: nat)
      requires Valid(cmp)
      ensures At(k, t, node, parent) && Sound(k, t, h) && Sequence(k, t) == Inorder(tree) && OnPath(cmp, key, k)
      ensures node == null ==> t.Leaf? && (!k.Top? ==> (right <==> k.InRight?)) && !HasKey(Contents(), key)
      ensures node != null ==> t.Node? && node == t.n && node.parent == parent && node.key == key
      ensures node != null ==> Place(k, t) < |Contents()| && Contents()[Place(k, t)] == Entry(key, node.data) && HasKey(Contents(), key)
      ensures Pow2(Depth(k) + (if node == null then 0 else 1)) <= (|Contents()| + 1) * (|Contents()| + 1)
    {
      node, parent, right, k, t, h := Descend(cmp, key);
      PathBound(tree, Depth(k) + (if node == null then 0 else 1));
      if node == null {
        LeafNotFound(cmp, key, k);
      } else {
        FoundAt(cmp, k, t, Inorder(tree));
      }
    }

    /** `lhi_get_rbtree` */
    method Get(cmp: (Key, Key) -> int, key: Key) returns (st: Status, res: Option<Data>)
      requires Valid(cmp)
      ensures if HasKey(Contents(), key) then st == SUCCESS && res.Some? && Entry(key, res.value) in Contents()
              else st == ERR_NOKEY && res == None
    {
      var node, parent, right;
      ghost var k, t, h;
      node, parent, right, k, t, h := Search(cmp, key);
      if node == null {
        return ERR_NOKEY, None;
      }
      return SUCCESS, Some(node.data);
    }

    /** The links that `rb_link_node` writes. */
    method LinkRaw(node: RbNode, parent: RbNode?, right: bool)
      requires node !in nodes && Opt(parent) <= nodes
      modifies this`root, this`nodes, node, Opt(parent)
      ensures nodes == old(nodes) + {node} && node.parent == parent && Store()[node] == Cell(null, null, parent, true)
      ensures if parent == null then root == node
              else root == old(root) && Store()[parent] == HungAt(old(Store())[parent], node, right)
      ensures Same(old(Store()), Store(), old(nodes) - Opt(parent))
    {
      node.parent, node.red := parent, true;
      node.left, node.right := null, null;
      if parent == null {
        root := node;
      } else if right {
        parent.right := node;
      } else {
        parent.left := node;
      }
      nodes := nodes + {node};
    }

    /** `rb_link_node` */
    method LinkNode(node: RbNode, parent: RbNode?, right: bool, ghost k: Ctx)
      requires At(k, Leaf, null, parent) && node !in nodes && (!k.Top? ==> (right <==> k.InRight?))
      modifies this`root, this`nodes, node, Opt(parent)
      ensures nodes == old(nodes) + {node} && node.parent == parent
      ensures At(k, Node(Leaf, node, true, Leaf), node, parent)
    {
      ghost var s := Store();
      FocusPointer(s, root, k, Leaf, null, parent);
      LinkRaw(node, parent, right);
      LinkHolds(s, Store(), old(root), root, k, parent, node);
    }

    /** `rb_link_node` followed by `rb_insert_color`. */
    method LinkAndColor(node: RbNode, parent: RbNode?, right: bool, ghost k: Ctx, ghost h: nat) returns (ghost t: Tree)
      requires At(k, Leaf, null, parent) && Sound(k, Leaf, h) && (!k.Top? ==> (right <==> k.InRight?)) && node !in nodes
      modifies this`root, this`nodes, nodes, node
      ensures nodes == old(nodes) + {node} && At(Top, t, root, null) && Balanced(t)
      ensures Inorder(t) == Sequence(k, Node(Leaf, node, true, Leaf))
    {
      LeafInserting(k, node, h);
      ParentPointer(Store(), root, k, Leaf, null, parent);
      LinkNode(node, parent, right, k);
      t := InsertColor(node, k, Node(Leaf, node, true, Leaf), h);
    }

    /** The part of `lhi_insert_rbtree` after the allocation. */
    method InsertNode(cmp: (Key, Key) -> int, node: RbNode, parent: RbNode?, right: bool, ghost k: Ctx, ghost h: nat)
      requires At(k, Leaf, null, parent) && Sound(k, Leaf, h) && (!k.Top? ==> (right <==> k.InRight?)) && node !in nodes
      requires TotalOrder(cmp) && OnPath(cmp, node.key, k) && Descending(cmp, Sequence(k, Leaf))
      modifies this, nodes, node
      ensures Valid(cmp) && nodes == old(nodes) + {node}
      ensures Contents() == Added(EntriesOf(Sequence(k, Leaf)), |Before(k)|, Entry(node.key, node.data))
    {
      LeafInserted(cmp, k, node);
      ghost var t := LinkAndColor(node, parent, right, k, h);
      Settle(cmp, t);
    }

    /** The tree is known again. */
    ghost method Settle(cmp: (Key, Key) -> int, t: Tree)
      requires At(Top, t, root, null) && Balanced(t) && TotalOrder(cmp) && Descending(cmp, Inorder(t))
      modifies this`tree
      ensures Valid(cmp) && tree == t && unchanged(this`nodes, this`root)
    {
      tree := t;
    }

    /** `lhi_insert_rbtree`: `pos` is where the entry comes to stand. */
    method Insert(cmp: (Key, Key) -> int, key: Key, data: Data) returns (st: Status, ghost pos: nat)
      requires Valid(cmp)
      modifies this, nodes
      ensures Valid(cmp) && fresh(nodes - old(nodes))
      ensures old(HasKey(Contents(), key)) ==>
        st == ERR_DUPKEY && unchanged(this) && forall n | n in nodes :: unchanged(n)
      ensures old(!HasKey(Contents(), key)) ==>
        st == SUCCESS && pos <= |old(Contents())| && Contents() == Added(old(Contents()), pos, Entry(key, data))
    {
      var node, parent, right;
      ghost var k, t, h;
      node, parent, right, k, t, h := Search(cmp, key);
      if node != null {
        return ERR_DUPKEY, 0;
      }
      st, pos := SUCCESS, |Before(k)|;
      var node_new := new RbNode(key, data);
      InsertNode(cmp, node_new, parent, right, k, h);
    }

    /** The part of `lhi_remove_rbtree` after the search. */
    method RemoveAt(cmp: (Key, Key) -> int, node: RbNode, ghost k: Ctx, ghost t: Tree, ghost h: nat, ghost es: seq<Entry>)
      requires t.Node? && node == t.n && At(k, t, node, node.parent) && Sound(k, t, h)
      requires TotalOrder(cmp) && Descending(cmp, Sequence(k, t)) && es == EntriesOf(Sequence(k, t)) && Place(k, t) < |es|
      modifies this, nodes
      ensures Valid(cmp) && nodes == old(nodes) - {node} && Contents() == Removed(es, Place(k, t))
    {
      RemovedAt(cmp, k, t, es);
      ghost var t' := EraseNode(node, k, t, h);
      Settle(cmp, t');
    }

    /** `lhi_remove_rbtree`: `pos` is where the entry stood. */
    method Remove(cmp: (Key, Key) -> int, key: Key) returns (st: Status, res: Option<Data>, ghost pos: nat)
      requires Valid(cmp)
      modifies this, nodes
      ensures Valid(cmp) && nodes <= old(nodes)
      ensures old(!HasKey(Contents(), key)) ==>
        st == ERR_NOKEY && res == None && unchanged(this) && forall n | n in nodes :: unchanged(n)
      ensures old(HasKey(Contents(), key)) ==>
        && st == SUCCESS && res.Some? && pos < |old(Contents())|
        && old(Contents())[pos] == Entry(key, res.value) && Contents() == Removed(old(Contents()), pos)
    {
      var node, parent, right;
      ghost var k, t, h;
      node, parent, right, k, t, h := Search(cmp, key);
      if node == null {
        return ERR_NOKEY, None, 0;
      }
      st, res, pos := SUCCESS, Some(node.data), Place(k, t);
      RemoveAt(cmp, node, k, t, h, Contents());
    }
  }
}
