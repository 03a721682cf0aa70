/** What it means to be a red-black tree, and how the shape changes of insertion and erasure
    bear on it. Nothing here looks at pointers. */
module RbBalance {
  import opened RbShape
  import opened Powers

  ghost function Inorder(t: Tree): seq<RbNode> {
    match t
    case Leaf => []
    case Node(l, n, _, r) => Inorder(l) + [n] + Inorder(r)
  }

  /** The nodes that come before, and after, the hole of a context. */
  ghost function Before(k: Ctx): seq<RbNode> {
    match k
    case Top => []
    case InLeft(up, _, _, _) => Before(up)
    case InRight(l, n, _, up) => Before(up) + Inorder(l) + [n]
  }

  ghost function After(k: Ctx): seq<RbNode> {
    match k
    case Top => []
    case InLeft(up, n, _, r) => [n] + Inorder(r) + After(up)
    case InRight(_, _, _, up) => After(up)
  }

  /** The in-order sequence of the whole tree. */
  ghost function Sequence(k: Ctx, t: Tree): seq<RbNode> {
    Before(k) + Inorder(t) + After(k)
  }

  predicate IsRed(t: Tree) {
    t.Node? && t.red
  }

  /** Every path down has `h` black nodes, and no red node has a red child. */
  ghost predicate RB(t: Tree, h: nat) {
    match t
    case Leaf => h == 0
    case Node(l, _, red, r) =>
      if red then RB(l, h) && RB(r, h) && !IsRed(l) && !IsRed(r)
      else h > 0 && RB(l, h - 1) && RB(r, h - 1)
  }

  /** The context stays red-black around a tree of black height `h` whose root is red iff `red`. */
  ghost predicate CtxRB(k: Ctx, h: nat, red: bool)
    decreases k
  {
    match k
    case Top => !red
    case InLeft(up, _, c, r) =>
      RB(r, h) && (c ==> !red && !IsRed(r)) && CtxRB(up, if c then h else h + 1, c)
    case InRight(l, _, c, up) =>
      RB(l, h) && (c ==> !red && !IsRed(l)) && CtxRB(up, if c then h else h + 1, c)
  }

  ghost predicate Balanced(t: Tree) {
    !IsRed(t) && exists h: nat :: RB(t, h)
  }

  lemma {:induction false} PlugBalanced(k: Ctx, t: Tree, h: nat)
    requires RB(t, h) && CtxRB(k, h, IsRed(t))
    ensures Balanced(Plug(k, t))
    decreases k
  {
    if !k.Top? {
      PlugBalanced(k.up, Fill(k, t), if k.red then h else h + 1);
    }
  }

  lemma {:induction false} PlugSequence(k: Ctx, t: Tree)
    ensures Inorder(Plug(k, t)) == Sequence(k, t)
    decreases k
  {
    if !k.Top? {
      PlugSequence(k.up, Fill(k, t));
      FillSequence(k, t);
    }
  }

  lemma FillSequence(k: Ctx, t: Tree)
    requires !k.Top?
    ensures Sequence(k.up, Fill(k, t)) == Sequence(k, t)
  {
    match k
    case InLeft(up, n, c, r) =>
      Spread(Before(up), Inorder(t), [n] + Inorder(r), After(up));
      Assoc(Inorder(t), [n], Inorder(r));
    case InRight(l, n, c, up) =>
      Spread'(Before(up), Inorder(l) + [n], Inorder(t), After(up));
      Assoc(Before(up), Inorder(l), [n]);
  }

  lemma Spread<T>(a: seq<T>, b: seq<T>, c: seq<T>, d: seq<T>)
    ensures a + (b + c) + d == a + b + (c + d)
  {}

  lemma Spread'<T>(a: seq<T>, b: seq<T>, c: seq<T>, d: seq<T>)
    ensures a + (b + c) + d == (a + b) + c + d
  {}

  lemma Assoc<T>(a: seq<T>, b: seq<T>, c: seq<T>)
    ensures (a + b) + c == a + (b + c)
  {}

  lemma Rotated<T>(a: seq<T>, x: T, b: seq<T>, y: T, c: seq<T>)
    ensures (a + [x] + b) + [y] + c == a + [x] + (b + [y] + c)
  {}

  /** Rotation and recolouring keep the in-order sequence. */
  lemma RotLInorder(t: Tree)
    requires t.Node? && t.r.Node?
    ensures Inorder(RotL(t)) == Inorder(t)
  {
    var a, b, c := Inorder(t.l), Inorder(t.r.l), Inorder(t.r.r);
    Rotated(a, t.n, b, t.r.n, c);
    assert Inorder(t.r) == b + [t.r.n] + c;
    assert Inorder(RotL(t).l) == a + [t.n] + b;
  }

  lemma RotRInorder(t: Tree)
    requires t.Node? && t.l.Node?
    ensures Inorder(RotR(t)) == Inorder(t)
  {
    var a, b, c := Inorder(t.l.l), Inorder(t.l.r), Inorder(t.r);
    Rotated(a, t.l.n, b, t.n, c);
    assert Inorder(t.l) == a + [t.l.n] + b;
    assert Inorder(RotR(t).r) == b + [t.n] + c;
  }

  lemma SequenceSubst(k: Ctx, t: Tree, t': Tree)
    requires Inorder(t') == Inorder(t)
    ensures Sequence(k, t') == Sequence(k, t)
  {}

  function Depth(k: Ctx): nat {
    if k.Top? then 0 else 1 + Depth(k.up)
  }

  // ----- insertion ------------------------------------------------------------------------------

  /** The state of `rb_insert_color`: the red node in focus is the only possible offence, and
      only against its own parent. */
  ghost predicate Inserting(k: Ctx, t: Tree, h: nat) {
    IsRed(t) && RB(t, h) && CtxRB(k, h, false)
  }

  lemma InsertingParentRed(k: Ctx, t: Tree, h: nat)
    requires Inserting(k, t, h) && !k.Top? && k.red
    ensures CtxRB(k.up, h, true) && !k.up.Top? && !k.up.red
  {
    assert CtxRB(k.up, h, true);
  }

  /** Red uncle: both parents turn black, the grandparent red, and it becomes the focus. */
  lemma InsertRecolor(k: Ctx, t: Tree, h: nat, gt': Tree)
    requires Inserting(k, t, h) && !k.Top? && k.red && !k.up.Top?
    requires k.up.InLeft? ==> IsRed(k.up.r) && gt' == Node(Blacken(Fill(k, t)), k.up.n, true, Blacken(k.up.r))
    requires k.up.InRight? ==> IsRed(k.up.l) && gt' == Node(Blacken(k.up.l), k.up.n, true, Blacken(Fill(k, t)))
    ensures Inserting(k.up.up, gt', h + 1) && Sequence(k.up.up, gt') == Sequence(k, t)
  {
    FillSequence(k, t);
    FillSequence(k.up, Fill(k, t));
    InsertingParentRed(k, t, h);
    assert RB(Blacken(Fill(k, t)), h + 1);
    SequenceSubst(k.up.up, Fill(k.up, Fill(k, t)), gt');
  }

  /** Inner grandchild: a rotation at the parent makes it an outer one. */
  lemma InsertInner(k: Ctx, t: Tree, h: nat, k': Ctx, t': Tree)
    requires Inserting(k, t, h) && !k.Top? && k.red
    requires k.InRight? ==> t' == Node(k.l, k.n, k.red, t.l) && k' == InLeft(k.up, t.n, t.red, t.r)
    requires k.InLeft? ==> t' == Node(t.r, k.n, k.red, k.r) && k' == InRight(t.l, t.n, t.red, k.up)
    ensures Inserting(k', t', h) && k'.red && Sequence(k', t') == Sequence(k, t)
  {
    FillSequence(k, t);
    FillSequence(k', t');
    if k.InRight? { RotLInorder(Fill(k, t)); } else { RotRInorder(Fill(k, t)); }
    SequenceSubst(k.up, Fill(k, t), Fill(k', t'));
  }

  /** Outer grandchild: recolouring and a rotation at the grandparent end the repair. */
  lemma InsertOuter(k: Ctx, t: Tree, h: nat, k': Ctx)
    requires Inserting(k, t, h) && !k.Top? && k.red && !k.up.Top? && !k.up.red
    requires k.InLeft? ==> k.up.InLeft? && !IsRed(k.up.r) && k' == InLeft(k.up.up, k.n, false, Node(k.r, k.up.n, true, k.up.r))
    requires k.InRight? ==> k.up.InRight? && !IsRed(k.up.l) && k' == InRight(Node(k.up.l, k.up.n, true, k.l), k.n, false, k.up.up)
    ensures RB(t, h) && CtxRB(k', h, true) && Sequence(k', t) == Sequence(k, t)
  {
    FillSequence(k, t);
    FillSequence(k.up, Fill(k, t));
    FillSequence(k', t);
    InsertingParentRed(k, t, h);
    if k.InLeft? { RotRInorder(Fill(k.up, Fill(k, t))); } else { RotLInorder(Fill(k.up, Fill(k, t))); }
    SequenceSubst(k.up.up, Fill(k.up, Fill(k, t)), Fill(k', t));
  }

  /** When the parent is black or missing, painting the root black completes the insertion. */
  lemma InsertedBalanced(k: Ctx, t: Tree, h: nat)
    requires Inserting(k, t, h) && (k.Top? || !k.red)
    ensures Plug(k, t).Node? && Balanced(Blacken(Plug(k, t))) && Inorder(Blacken(Plug(k, t))) == Sequence(k, t)
  {
    PlugSequence(k, t);
    PlugNode(k, t);
    if k.Top? {
      assert RB(Blacken(t), h + 1);
    } else {
      PlugBalanced(k, t, h);
    }
  }

  lemma {:induction false} PlugNode(k: Ctx, t: Tree)
    requires t.Node?
    ensures Plug(k, t).Node?
    decreases k
  {
    if !k.Top? { PlugNode(k.up, Fill(k, t)); }
  }

  // ----- erasure --------------------------------------------------------------------------------

  /** The state of `__rb_erase_color`: the tree in focus is one black node short of what its
      context asks for. A red root can make that good by turning black. */
  ghost predicate Erasing(k: Ctx, t: Tree, h: nat) {
    CtxRB(k, h + 1, false) && if IsRed(t) then RB(Blacken(t), h + 1) else RB(t, h)
  }

  ghost function Inner(k: Ctx): Tree
    requires !k.Top? && Sibling(k).Node?
  {
    if k.InLeft? then k.r.l else k.l.r
  }

  ghost function Outer(k: Ctx): Tree
    requires !k.Top? && Sibling(k).Node?
  {
    if k.InLeft? then k.r.r else k.l.l
  }

  ghost function WithSibling(k: Ctx, s: Tree): Ctx
    requires !k.Top?
  {
    if k.InLeft? then InLeft(k.up, k.n, k.red, s) else InRight(s, k.n, k.red, k.up)
  }

  lemma ErasingSibling(k: Ctx, t: Tree, h: nat)
    requires Erasing(k, t, h) && !k.Top?
    ensures Sibling(k).Node? && RB(Sibling(k), h + 1)
  {}

  lemma RedSiblingSequence(k: Ctx, t: Tree, k': Ctx)
    requires !k.Top? && Sibling(k).Node?
    requires k.InLeft? ==> k' == InLeft(InLeft(k.up, k.r.n, false, k.r.r), k.n, true, k.r.l)
    requires k.InRight? ==> k' == InRight(k.l.r, k.n, true, InRight(k.l.l, k.l.n, false, k.up))
    ensures Sequence(k', t) == Sequence(k, t)
  {
    FillSequence(k, t);
    FillSequence(k', t);
    FillSequence(k'.up, Fill(k', t));
    if k.InLeft? { RotLInorder(Fill(k, t)); } else { RotRInorder(Fill(k, t)); }
    SequenceSubst(k.up, Fill(k, t), Fill(k'.up, Fill(k', t)));
  }

  /** Red sibling: after a rotation at the parent the sibling is black. */
  lemma EraseRedSibling(k: Ctx, t: Tree, h: nat, k': Ctx)
    requires Erasing(k, t, h) && !IsRed(t) && !k.Top? && IsRed(Sibling(k))
    requires k.InLeft? ==> k' == InLeft(InLeft(k.up, k.r.n, false, k.r.r), k.n, true, k.r.l)
    requires k.InRight? ==> k' == InRight(k.l.r, k.n, true, InRight(k.l.l, k.l.n, false, k.up))
    ensures Erasing(k', t, h) && !IsRed(Sibling(k')) && Sequence(k', t) == Sequence(k, t)
  {
    RedSiblingSequence(k, t, k');
    ErasingSibling(k, t, h);
    assert CtxRB(k'.up, h + 1, true);
  }

  /** Black sibling with black children: it turns red and the shortage moves up. */
  lemma EraseBlackNephews(k: Ctx, t: Tree, h: nat, t': Tree)
    requires Erasing(k, t, h) && !IsRed(t) && !k.Top?
    requires Sibling(k).Node? && !Sibling(k).red && !IsRed(Inner(k)) && !IsRed(Outer(k))
    requires t' == Fill(WithSibling(k, Sibling(k).(red := true)), t)
    ensures Erasing(k.up, t', if k.red then h else h + 1) && Sequence(k.up, t') == Sequence(k, t)
    ensures IsRed(t') == k.red
  {
    FillSequence(k, t);
    ErasingSibling(k, t, h);
    assert RB(Sibling(k).(red := true), h);
    SequenceSubst(k.up, Fill(k, t), t');
    if k.red { CtxRBWeaken(k.up, h + 1); }
  }

  lemma CtxRBWeaken(k: Ctx, h: nat)
    requires CtxRB(k, h, true)
    ensures CtxRB(k, h, false)
  {}

  /** Inner nephew red, outer one not: a rotation at the sibling makes the outer one red. */
  lemma EraseInnerNephew(k: Ctx, t: Tree, h: nat, k': Ctx)
    requires Erasing(k, t, h) && !IsRed(t) && !k.Top?
    requires Sibling(k).Node? && !Sibling(k).red && IsRed(Inner(k)) && !IsRed(Outer(k))
    requires k.InLeft? ==> k' == InLeft(k.up, k.n, k.red, Node(k.r.l.l, k.r.l.n, false, Node(k.r.l.r, k.r.n, true, k.r.r)))
    requires k.InRight? ==> k' == InRight(Node(Node(k.l.l, k.l.n, true, k.l.r.l), k.l.r.n, false, k.l.r.r), k.n, k.red, k.up)
    ensures Erasing(k', t, h) && !IsRed(Sibling(k')) && IsRed(Outer(k')) && Sequence(k', t) == Sequence(k, t)
  {
    ErasingSibling(k, t, h);
    assert RB(Inner(k), h) && RB(Outer(k), h);
    if k.InLeft? { RotRInorder(k.r); } else { RotLInorder(k.l); }
    assert Inorder(Sibling(k')) == Inorder(Sibling(k));
  }

  /** Outer nephew red: a rotation at the parent ends the repair. */
  lemma EraseOuterNephew(k: Ctx, t: Tree, h: nat, t': Tree)
    requires Erasing(k, t, h) && !IsRed(t) && !k.Top?
    requires Sibling(k).Node? && !Sibling(k).red && IsRed(Outer(k))
    requires k.InLeft? ==> t' == Node(Node(t, k.n, false, k.r.l), k.r.n, k.red, Blacken(k.r.r))
    requires k.InRight? ==> t' == Node(Blacken(k.l.l), k.l.n, k.red, Node(k.l.r, k.n, false, t))
    ensures Balanced(Plug(k.up, t')) && Inorder(Plug(k.up, t')) == Sequence(k, t)
  {
    ErasingSibling(k, t, h);
    assert RB(Inner(k), h) && RB(Outer(k), h) && RB(Blacken(Outer(k)), h + 1);
    PlugBalanced(k.up, t', if k.red then h + 1 else h + 2);
    FillSequence(k, t);
    if k.InLeft? { RotLInorder(Fill(k, t)); } else { RotRInorder(Fill(k, t)); }
    SequenceSubst(k.up, Fill(k, t), t');
    PlugSequence(k.up, t');
  }

  /** A balanced tree is a finished erasure. */
  lemma BalancedErasing(t: Tree) returns (h: nat)
    requires Balanced(t)
    ensures Erasing(Top, t, h) && Sequence(Top, t) == Inorder(t)
  {
    h :| RB(t, h);
  }

  /** When the focus is red or at the top, painting it black completes the erasure. */
  lemma ErasedBalanced(k: Ctx, t: Tree, h: nat)
    requires Erasing(k, t, h) && (IsRed(t) || k.Top?)
    ensures Balanced(Plug(k, Blacken(t))) && Inorder(Plug(k, Blacken(t))) == Sequence(k, t)
  {
    PlugSequence(k, Blacken(t));
    if IsRed(t) {
      PlugBalanced(k, Blacken(t), h + 1);
    }
  }

  /** A focus anywhere in a balanced tree. */
  ghost predicate Sound(k: Ctx, t: Tree, h: nat) {
    RB(t, h) && CtxRB(k, h, IsRed(t))
  }

  /** Replacing a node by its only child is harmless if it was red, and leaves the tree one
      black node short if it was black. */
  lemma UnlinkBalance(k: Ctx, t: Tree, h: nat)
    requires t.Node? && Sound(k, t, h) && (t.l.Leaf? || t.r.Leaf?)
    ensures t.red ==> Sound(k, OnlyChild(t), h)
    ensures !t.red ==> h > 0 && Erasing(k, OnlyChild(t), h - 1)
  {
    if t.red {
      CtxRBWeaken(k, h);
    } else {
      assert RB(OnlyChild(t), h - 1);
    }
  }

  /** The in-order sequence without the node in focus. */
  ghost function Without(k: Ctx, t: Tree): seq<RbNode>
    requires t.Node?
  {
    Before(k) + Inorder(t.l) + Inorder(t.r) + After(k)
  }

  lemma UnlinkSequence(k: Ctx, t: Tree)
    requires t.Node? && (t.l.Leaf? || t.r.Leaf?)
    ensures Sequence(k, OnlyChild(t)) == Without(k, t)
  {
    if t.l.Leaf? {
      assert Before(k) + [] == Before(k);
    } else {
      assert Before(k) + Inorder(t.l) + [] == Before(k) + Inorder(t.l);
    }
  }

  ghost predicate LeftSpine(seg: Ctx) {
    seg.Top? || (seg.InLeft? && LeftSpine(seg.up))
  }

  ghost function Below(h: nat, red: bool): nat {
    if red || h == 0 then h else h - 1
  }

  /** One step of the walk down the left spine. */
  lemma WalkDown(s: Store, root: RbNode?, seg: Ctx, base: Ctx, f: Tree, x: RbNode?, p: RbNode?, h: nat)
    requires f.Node? && f.l.Node? && Holds(s, root, Graft(seg, base), f, x, p) && Sound(Graft(seg, base), f, h)
    ensures var seg' := InLeft(seg, f.n, f.red, f.r);
      && Holds(s, root, Graft(seg', base), f.l, f.l.n, f.n) && Sound(Graft(seg', base), f.l, Below(h, f.red))
      && Plug(seg', f.l) == Plug(seg, f)
      && Nodes(f.l) + CtxNodes(Graft(seg', base)) == Nodes(f) + CtxNodes(Graft(seg, base))
  {
    FocusLeft(s, root, Graft(seg, base), f, x, p);
  }

  /** The walk to the leftmost node has come to `f` below `base`; `whole` is where it began. */
  ghost predicate Descent(s: Store, root: RbNode?, base: Ctx, whole: Tree, seg: Ctx, f: Tree, x: RbNode, p: RbNode?, h: nat) {
    && f.Node? && LeftSpine(seg) && whole == Plug(seg, f) && Sound(Graft(seg, base), f, h)
    && Nodes(f) + CtxNodes(Graft(seg, base)) == s.Keys && Holds(s, root, Graft(seg, base), f, x, p)
    && x == f.n && x in s && (if f.l.Leaf? then s[x].left == null else s[x].left == f.l.n)
  }

  lemma DescentStep(s: Store, root: RbNode?, base: Ctx, whole: Tree, seg: Ctx, f: Tree, x: RbNode, p: RbNode?, h: nat)
    requires Descent(s, root, base, whole, seg, f, x, p, h) && f.l.Node?
    ensures Descent(s, root, base, whole, InLeft(seg, f.n, f.red, f.r), f.l, f.l.n, x, Below(h, f.red))
  {
    WalkDown(s, root, seg, base, f, x, p, h);
    ChildPointers(s, root, Graft(InLeft(seg, f.n, f.red, f.r), base), f.l, f.l.n, x);
  }

  lemma DescentStart(s: Store, root: RbNode?, k: Ctx, t: Tree, p: RbNode?, h: nat)
    requires t.Node? && t.r.Node? && Holds(s, root, k, t, t.n, p) && Sound(k, t, h) && s.Keys == Nodes(t) + CtxNodes(k)
    ensures t.n in s && s[t.n].right == t.r.n
    ensures Descent(s, root, InRight(t.l, t.n, t.red, k), t.r, Top, t.r, t.r.n, t.n, Below(h, t.red))
  {
    var base := InRight(t.l, t.n, t.red, k);
    FocusRight(s, root, k, t, t.n, p);
    ChildPointers(s, root, k, t, t.n, p);
    ChildPointers(s, root, base, t.r, t.r.n, t.n);
  }

  lemma {:induction false} GraftSequence(seg: Ctx, base: Ctx)
    requires LeftSpine(seg)
    ensures Before(Graft(seg, base)) == Before(base) && After(Graft(seg, base)) == After(seg) + After(base)
    ensures Before(seg) == []
  {
    if !seg.Top? {
      GraftSequence(seg.up, base);
      Assoc([seg.n] + Inorder(seg.r), After(seg.up), After(base));
    } else {
      assert [] + After(base) == After(base);
    }
  }

  /** Balance does not ask which node sits at the joint. */
  lemma {:induction false} GraftRename(seg: Ctx, base: Ctx, y: RbNode, h: nat, red: bool)
    requires base.InRight? && CtxRB(Graft(seg, base), h, red)
    ensures CtxRB(Graft(seg, InRight(base.l, y, base.red, base.up)), h, red)
    decreases seg
  {
    if !seg.Top? {
      GraftRename(seg.up, base, y, if seg.red then h else h + 1, seg.red);
    }
  }

  lemma Regroup<T>(a: seq<T>, b: seq<T>, y: seq<T>, c: seq<T>, d: seq<T>, e: seq<T>)
    ensures (a + b + y) + c + (d + e) == a + b + (y + c + d) + e
  {}

  /** Moving the successor `y` of `z` into its place takes exactly `z` out of the sequence. */
  lemma SpliceSequence(seg: Ctx, base: Ctx, y: RbNode, red: bool, sr: Tree)
    requires LeftSpine(seg) && base.InRight?
    ensures Inorder(Plug(seg, Node(Leaf, y, red, sr))) == [y] + Inorder(sr) + After(seg)
    ensures var base' := InRight(base.l, y, base.red, base.up);
      Sequence(Graft(seg, base'), sr)
        == Before(base.up) + Inorder(base.l) + ([y] + Inorder(sr) + After(seg)) + After(base.up)
  {
    var base' := InRight(base.l, y, base.red, base.up);
    GraftSequence(seg, base');
    PlugSequence(seg, Node(Leaf, y, red, sr));
    assert Inorder(Node(Leaf, y, red, sr)) == [y] + Inorder(sr);
    Regroup(Before(base.up), Inorder(base.l), [y], Inorder(sr), After(seg), After(base.up));
  }

  /** The successor's child, one black node short if the successor was black, in the context
      where the successor stands for its ancestor. */
  lemma SpliceBalance(seg: Ctx, base: Ctx, f: Tree, h: nat) returns (h': nat)
    requires f.Node? && f.l.Leaf? && base.InRight? && LeftSpine(seg) && Sound(Graft(seg, base), f, h)
    ensures var k' := Graft(seg, InRight(base.l, f.n, base.red, base.up));
      && (if f.red then Sound(k', f.r, h') else Erasing(k', f.r, h'))
      && Sequence(k', f.r) == Before(base.up) + Inorder(base.l) + Inorder(Plug(seg, f)) + After(base.up)
  {
    UnlinkBalance(Graft(seg, base), f, h);
    SpliceSequence(seg, base, f.n, f.red, f.r);
    if f.red {
      h' := h;
      GraftRename(seg, base, f.n, h, IsRed(f.r));
    } else {
      h' := h - 1;
      GraftRename(seg, base, f.n, h, false);
    }
  }

  /** A red node at a leaf starts an insertion. */
  lemma LeafInserting(k: Ctx, n: RbNode, h: nat)
    requires Sound(k, Leaf, h)
    ensures Inserting(k, Node(Leaf, n, true, Leaf), h)
  {}

  // ----- height -------------------------------------------------------------------------------

  ghost function Height(t: Tree): nat {
    match t
    case Leaf => 0
    case Node(l, _, _, r) => 1 + (if Height(l) >= Height(r) then Height(l) else Height(r))
  }

  ghost function Size(t: Tree): nat {
    |Inorder(t)|
  }

  lemma Pow2Mono(a: nat, b: nat)
    requires a <= b
    ensures Pow2(a) <= Pow2(b)
    decreases b
  {
    if a < b { Pow2Mono(a, b - 1); }
  }

  lemma {:induction false} Pow2Double(a: nat)
    ensures Pow2(2 * a) == Pow2(a) * Pow2(a)
  {
    if a > 0 {
      Pow2Double(a - 1);
      var m := Pow2(a - 1);
      assert Pow2(2 * a) == 4 * Pow2(2 * (a - 1));
      assert (2 * m) * (2 * m) == 4 * (m * m);
    }
  }

  lemma SquareMono(p: nat, q: nat)
    requires p <= q
    ensures p * p <= q * q
  {
    assert p * p <= p * q <= q * q;
  }

  lemma {:induction false} BlackHeightBounds(t: Tree, h: nat)
    requires RB(t, h)
    ensures Pow2(h) <= Size(t) + 1
    ensures Height(t) <= 2 * h + (if IsRed(t) then 1 else 0)
  {
    match t
    case Leaf =>
    case Node(l, _, red, r) =>
      var h' := if red then h else h - 1;
      BlackHeightBounds(l, h');
      BlackHeightBounds(r, h');
  }

  /** A search path in a tree of `n` nodes has at most 2 * log2(n + 1) of them. */
  lemma HeightBound(t: Tree)
    requires Balanced(t)
    ensures Pow2(Height(t)) <= (Size(t) + 1) * (Size(t) + 1)
  {
    var h: nat :| RB(t, h);
    BlackHeightBounds(t, h);
    Pow2Mono(Height(t), 2 * h);
    Pow2Double(h);
    SquareMono(Pow2(h), Size(t) + 1);
  }

  lemma PathBound(t: Tree, d: nat)
    requires Balanced(t) && d <= Height(t)
    ensures Pow2(d) <= (Size(t) + 1) * (Size(t) + 1)
  {
    HeightBound(t);
    Pow2Mono(d, Height(t));
  }
}
