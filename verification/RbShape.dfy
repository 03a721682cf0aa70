/** The nodes of a red-black tree and the pure vocabulary its proofs use.

    A tree in the heap is described by a ghost value: a `Tree` (which node sits where, and with
    which colour) together with a `Ctx`, the path from a node up to the root with the subtrees
    hanging off it. Climbing the parent pointers is moving along the context. */
module RbShape {
  import opened Entries

  /** `struct lhi_rb_entry` with its embedded `struct rb_node`. The packed word
      `rb_parent_color` is the pair of fields `parent` and `red`. */
  class RbNode {
    var left: RbNode?
    var right: RbNode?
    var parent: RbNode?
    var red: bool
    const key: Key
    const data: Data

    constructor (key: Key, data: Data)
      ensures this.key == key && this.data == data
    {
      this.key := key;
      this.data := data;
      left, right, parent, red := null, null, null, true;
    }
  }

  datatype Tree = Leaf | Node(l: Tree, n: RbNode, red: bool, r: Tree)

  /** The path from a hole to the top: `InLeft` says the hole is the left child of `n`. */
  datatype Ctx =
    | Top
    | InLeft(up: Ctx, n: RbNode, red: bool, r: Tree)
    | InRight(l: Tree, n: RbNode, red: bool, up: Ctx)

  ghost function Nodes(t: Tree): set<RbNode> {
    match t
    case Leaf => {}
    case Node(l, n, _, r) => Nodes(l) + {n} + Nodes(r)
  }

  ghost function CtxNodes(k: Ctx): set<RbNode> {
    match k
    case Top => {}
    case InLeft(up, n, _, r) => CtxNodes(up) + {n} + Nodes(r)
    case InRight(l, n, _, up) => CtxNodes(up) + {n} + Nodes(l)
  }

  ghost function Plug(k: Ctx, t: Tree): Tree
    decreases k
  {
    match k
    case Top => t
    case InLeft(up, n, red, r) => Plug(up, Node(t, n, red, r))
    case InRight(l, n, red, up) => Plug(up, Node(l, n, red, t))
  }

  /** No node occurs twice in the tree. */
  ghost predicate Distinct(t: Tree) {
    match t
    case Leaf => true
    case Node(l, n, _, r) =>
      n !in Nodes(l) && n !in Nodes(r) && Nodes(l) !! Nodes(r) && Distinct(l) && Distinct(r)
  }

  ghost predicate CtxDistinct(k: Ctx) {
    match k
    case Top => true
    case InLeft(up, n, _, r) =>
      n !in CtxNodes(up) && n !in Nodes(r) && Nodes(r) !! CtxNodes(up) && Distinct(r) && CtxDistinct(up)
    case InRight(l, n, _, up) =>
      n !in CtxNodes(up) && n !in Nodes(l) && Nodes(l) !! CtxNodes(up) && Distinct(l) && CtxDistinct(up)
  }

  /** The four link fields of a node, and a snapshot of them for a set of nodes. */
  datatype Cell = Cell(left: RbNode?, right: RbNode?, parent: RbNode?, red: bool)
  type Store = map<RbNode, Cell>

  /** Below pointer `x`, whose parent is `p`, the store holds the tree `t`. */
  ghost predicate Rep(s: Store, t: Tree, x: RbNode?, p: RbNode?) {
    match t
    case Leaf => x == null
    case Node(l, n, red, r) =>
      && x == n && n in s && s[n].parent == p && s[n].red == red
      && Rep(s, l, s[n].left, n) && Rep(s, r, s[n].right, n)
  }

  /** Above pointer `x`, whose parent is `p`, the store holds the context `k`; the top node of
      the context (or `x`, when the context is empty) is `rx` and its parent is `rp`. */
  ghost predicate RepCtx(s: Store, k: Ctx, x: RbNode?, p: RbNode?, rx: RbNode?, rp: RbNode?) {
    match k
    case Top => x == rx && p == rp
    case InLeft(up, n, red, r) =>
      && p == n && n in s && s[n].left == x && s[n].red == red
      && Rep(s, r, s[n].right, n) && RepCtx(s, up, n, s[n].parent, rx, rp)
    case InRight(l, n, red, up) =>
      && p == n && n in s && s[n].right == x && s[n].red == red
      && Rep(s, l, s[n].left, n) && RepCtx(s, up, n, s[n].parent, rx, rp)
  }

  ghost predicate Separate(k: Ctx, t: Tree) {
    Distinct(t) && CtxDistinct(k) && Nodes(t) !! CtxNodes(k)
  }

  /** The store agrees with `s` on the nodes of `ns`. */
  ghost predicate Same(s: Store, s': Store, ns: set<RbNode>) {
    forall n :: n in ns && n in s ==> n in s' && s'[n] == s[n]
  }

  lemma {:induction false} RepFrame(s: Store, s': Store, t: Tree, x: RbNode?, p: RbNode?)
    requires Rep(s, t, x, p) && Same(s, s', Nodes(t))
    ensures Rep(s', t, x, p)
  {
    match t
    case Leaf =>
    case Node(l, n, _, r) =>
      RepFrame(s, s', l, s[n].left, n);
      RepFrame(s, s', r, s[n].right, n);
  }

  lemma {:induction false} RepCtxFrame(s: Store, s': Store, k: Ctx, x: RbNode?, p: RbNode?, rx: RbNode?, rp: RbNode?)
    requires RepCtx(s, k, x, p, rx, rp) && Same(s, s', CtxNodes(k))
    ensures RepCtx(s', k, x, p, rx, rp)
  {
    match k
    case Top =>
    case InLeft(up, n, _, r) =>
      RepFrame(s, s', r, s[n].right, n);
      RepCtxFrame(s, s', up, n, s[n].parent, rx, rp);
    case InRight(l, n, _, up) =>
      RepFrame(s, s', l, s[n].left, n);
      RepCtxFrame(s, s', up, n, s[n].parent, rx, rp);
  }

  /** A subtree that hangs from another parent but is otherwise untouched. */
  lemma RepAdopt(s: Store, s': Store, t: Tree, x: RbNode?, p: RbNode?, q: RbNode?)
    requires Rep(s, t, x, p) && Distinct(t)
    requires t.Node? ==> Same(s, s', Nodes(t) - {t.n}) && t.n in s' && s'[t.n] == s[t.n].(parent := q)
    ensures Rep(s', t, x, q)
  {
    if t.Node? {
      RepFrame(s, s', t.l, s[t.n].left, t.n);
      RepFrame(s, s', t.r, s[t.n].right, t.n);
    }
  }

  /** What `if (parent) ... else root->rb_node = to` does to the parent's cell. */
  ghost function Relink(c: Cell, from: RbNode?, to: RbNode?): Cell {
    if from == c.left then c.(left := to) else c.(right := to)
  }

  /** Replacing the child `x` by `y` in the parent's cell (or as the top) leaves the context. */
  lemma RepCtxRelink(s: Store, s': Store, k: Ctx, x: RbNode, y: RbNode?, p: RbNode?, rx: RbNode?, rx': RbNode?, rp: RbNode?)
    requires RepCtx(s, k, x, p, rx, rp) && CtxDistinct(k) && x !in CtxNodes(k)
    requires k.Top? ==> rx' == y
    requires !k.Top? ==> rx' == rx && Same(s, s', CtxNodes(k) - {k.n}) && k.n in s' && s'[k.n] == Relink(s[k.n], x, y)
    ensures RepCtx(s', k, y, p, rx', rp)
  {
    match k
    case Top =>
    case InLeft(up, n, _, r) =>
      RepFrame(s, s', r, s[n].right, n);
      RepCtxFrame(s, s', up, n, s[n].parent, rx, rp);
    case InRight(l, n, _, up) =>
      RepFrame(s, s', l, s[n].left, n);
      RepCtxFrame(s, s', up, n, s[n].parent, rx, rp);
  }

  ghost function RotL(t: Tree): Tree
    requires t.Node? && t.r.Node?
  {
    Node(Node(t.l, t.n, t.red, t.r.l), t.r.n, t.r.red, t.r.r)
  }

  lemma RotLSeparate(k: Ctx, t: Tree)
    requires t.Node? && t.r.Node? && Separate(k, t)
    ensures Separate(k, RotL(t)) && Nodes(RotL(t)) == Nodes(t)
  {
    var t1 := RotL(t).l;
    assert Nodes(t.r) == Nodes(t.r.l) + {t.r.n} + Nodes(t.r.r);
    assert Nodes(t1) == Nodes(t.l) + {t.n} + Nodes(t.r.l);
    assert Distinct(t.r) && Distinct(t1);
  }

  /** A store `s` with top pointer `root` holds `t` in context `k`, `x` being the root of `t`. */
  ghost predicate Holds(s: Store, root: RbNode?, k: Ctx, t: Tree, x: RbNode?, p: RbNode?) {
    Separate(k, t) && Rep(s, t, x, p) && RepCtx(s, k, x, p, root, null)
  }

  ghost predicate RotatedLeft(s: Store, s': Store, root: RbNode?, root': RbNode?, x: RbNode, y: RbNode)
    requires x in s && y in s
  {
    var b, p := s[y].left, s[x].parent;
    && x in s' && s'[x] == s[x].(right := b, parent := y)
    && y in s' && s'[y] == s[y].(left := x, parent := p)
    && (b != null && b in s ==> b in s' && s'[b] == s[b].(parent := x))
    && (if p == null then root' == y else root' == root && (p in s ==> p in s' && s'[p] == Relink(s[p], x, y)))
    && Same(s, s', s.Keys - {x, y} - (if b == null then {} else {b}) - (if p == null then {} else {p}))
  }

  /** The pointers a left rotation follows, and that no two of the cells it writes coincide. */
  lemma RotLCells(s: Store, root: RbNode?, k: Ctx, t: Tree, p: RbNode?)
    requires t.Node? && t.r.Node? && Holds(s, root, k, t, t.n, p)
    ensures var x, y, b := t.n, t.r.n, t.r.l;
      && x in s && y in s && x != y && s[x].right == y && s[x].parent == p
      && s[x].red == t.red && s[y].red == t.r.red
      && Rep(s, t.l, s[x].left, x) && Rep(s, b, s[y].left, y) && Rep(s, t.r.r, s[y].right, y)
      && (b.Node? ==> s[y].left == b.n && b.n in s && b.n != x && b.n != y && b.n != p)
      && (b.Leaf? ==> s[y].left == null)
      && (!k.Top? ==> p == k.n && p in s && p != x && p != y)
      && (k.Top? ==> p == null)
      && {x, y} <= Nodes(t) && (b.Node? ==> b.n in Nodes(t)) && Nodes(b) <= Nodes(t)
  {
    assert Rep(s, t.r, s[t.n].right, t.n);
    assert Nodes(t.r) == Nodes(t.r.l) + {t.r.n} + Nodes(t.r.r);
  }

  lemma RotateLeftHolds(s: Store, s': Store, root: RbNode?, root': RbNode?, k: Ctx, t: Tree, p: RbNode?)
    requires t.Node? && t.r.Node? && Holds(s, root, k, t, t.n, p)
    requires t.n in s && t.r.n in s && RotatedLeft(s, s', root, root', t.n, t.r.n)
    ensures Holds(s', root', k, RotL(t), t.r.n, p)
  {
    RotLSeparate(k, t);
    var x, y, a, b, c := t.n, t.r.n, t.l, t.r.l, t.r.r;
    RotLCells(s, root, k, t, p);
    assert Distinct(t.r) && Nodes(t.r) == Nodes(t.r.l) + {t.r.n} + Nodes(t.r.r);
    RepFrame(s, s', a, s[x].left, x);
    RepAdopt(s, s', b, s[y].left, y, x);
    RepFrame(s, s', c, s[y].right, y);
    RepCtxRelink(s, s', k, x, y, p, root, root', null);
    assert Rep(s', Node(a, x, t.red, b), s'[y].left, y);
    assert Rep(s', c, s'[y].right, y);
    assert Rep(s', Node(Node(a, x, t.red, b), y, t.r.red, c), y, p);
  }

  ghost function RotR(t: Tree): Tree
    requires t.Node? && t.l.Node?
  {
    Node(t.l.l, t.l.n, t.l.red, Node(t.l.r, t.n, t.red, t.r))
  }

  lemma RotRSeparate(k: Ctx, t: Tree)
    requires t.Node? && t.l.Node? && Separate(k, t)
    ensures Separate(k, RotR(t)) && Nodes(RotR(t)) == Nodes(t)
  {
    var t1 := RotR(t).r;
    assert Nodes(t.l) == Nodes(t.l.l) + {t.l.n} + Nodes(t.l.r);
    assert Nodes(t1) == Nodes(t.l.r) + {t.n} + Nodes(t.r);
    assert Distinct(t.l) && Distinct(t1);
  }

  /** What `__rb_rotate_right` writes, `y` being the left child of `x`. */
  ghost predicate RotatedRight(s: Store, s': Store, root: RbNode?, root': RbNode?, x: RbNode, y: RbNode)
    requires x in s && y in s
  {
    var b, p := s[y].right, s[x].parent;
    && x in s' && s'[x] == s[x].(left := b, parent := y)
    && y in s' && s'[y] == s[y].(right := x, parent := p)
    && (b != null && b in s ==> b in s' && s'[b] == s[b].(parent := x))
    && (if p == null then root' == y else root' == root && (p in s ==> p in s' && s'[p] == Relink(s[p], x, y)))
    && Same(s, s', s.Keys - {x, y} - (if b == null then {} else {b}) - (if p == null then {} else {p}))
  }

  /** The pointers a right rotation follows, and that no two of the cells it writes coincide. */
  lemma RotRCells(s: Store, root: RbNode?, k: Ctx, t: Tree, p: RbNode?)
    requires t.Node? && t.l.Node? && Holds(s, root, k, t, t.n, p)
    ensures var x, y, b := t.n, t.l.n, t.l.r;
      && x in s && y in s && x != y && s[x].left == y && s[x].parent == p
      && s[x].red == t.red && s[y].red == t.l.red
      && Rep(s, t.r, s[x].right, x) && Rep(s, b, s[y].right, y) && Rep(s, t.l.l, s[y].left, y)
      && (b.Node? ==> s[y].right == b.n && b.n in s && b.n != x && b.n != y && b.n != p)
      && (b.Leaf? ==> s[y].right == null)
      && (!k.Top? ==> p == k.n && p in s && p != x && p != y && (s[p].left == x) != (s[p].right == x))
      && (k.Top? ==> p == null)
      && {x, y} <= Nodes(t) && (b.Node? ==> b.n in Nodes(t)) && Nodes(b) <= Nodes(t)
  {
    assert Rep(s, t.l, s[t.n].left, t.n);
    assert Nodes(t.l) == Nodes(t.l.l) + {t.l.n} + Nodes(t.l.r);
  }

  lemma RotateRightHolds(s: Store, s': Store, root: RbNode?, root': RbNode?, k: Ctx, t: Tree, p: RbNode?)
    requires t.Node? && t.l.Node? && Holds(s, root, k, t, t.n, p)
    requires t.n in s && t.l.n in s && RotatedRight(s, s', root, root', t.n, t.l.n)
    ensures Holds(s', root', k, RotR(t), t.l.n, p)
  {
    RotRSeparate(k, t);
    var x, y, a, b, c := t.n, t.l.n, t.r, t.l.r, t.l.l;
    RotRCells(s, root, k, t, p);
    assert Distinct(t.l) && Nodes(t.l) == Nodes(t.l.l) + {t.l.n} + Nodes(t.l.r);
    RepFrame(s, s', a, s[x].right, x);
    RepAdopt(s, s', b, s[y].right, y, x);
    RepFrame(s, s', c, s[y].left, y);
    RepCtxRelink(s, s', k, x, y, p, root, root', null);
    assert Rep(s', Node(b, x, t.red, a), s'[y].right, y);
    assert Rep(s', c, s'[y].left, y);
    assert Rep(s', Node(c, y, t.l.red, Node(b, x, t.red, a)), y, p);
  }

  /** Closes the innermost frame of a context around `t`. */
  ghost function Fill(k: Ctx, t: Tree): Tree
    requires !k.Top?
  {
    match k
    case InLeft(_, n, red, r) => Node(t, n, red, r)
    case InRight(l, n, red, _) => Node(l, n, red, t)
  }

  /** The tree with its root painted black. */
  ghost function Blacken(t: Tree): Tree {
    if t.Node? then t.(red := false) else t
  }

  /** Moving the focus one step up or down changes nothing but the description. */
  lemma FocusUp(s: Store, root: RbNode?, k: Ctx, t: Tree, x: RbNode?, p: RbNode?)
    requires !k.Top?
    requires Holds(s, root, k, t, x, p)
    ensures p == k.n && k.n in s && Holds(s, root, k.up, Fill(k, t), p, s[k.n].parent)
    ensures Nodes(Fill(k, t)) + CtxNodes(k.up) == Nodes(t) + CtxNodes(k)
  {}

  lemma FocusLeft(s: Store, root: RbNode?, k: Ctx, t: Tree, x: RbNode?, p: RbNode?)
    requires t.Node? && Holds(s, root, k, t, x, p)
    ensures x == t.n && t.n in s && Holds(s, root, InLeft(k, t.n, t.red, t.r), t.l, s[t.n].left, t.n)
    ensures Nodes(t.l) + CtxNodes(InLeft(k, t.n, t.red, t.r)) == Nodes(t) + CtxNodes(k)
  {}

  lemma FocusRight(s: Store, root: RbNode?, k: Ctx, t: Tree, x: RbNode?, p: RbNode?)
    requires t.Node? && Holds(s, root, k, t, x, p)
    ensures x == t.n && t.n in s && Holds(s, root, InRight(t.l, t.n, t.red, k), t.r, s[t.n].right, t.n)
    ensures Nodes(t.r) + CtxNodes(InRight(t.l, t.n, t.red, k)) == Nodes(t) + CtxNodes(k)
  {}

  lemma {:induction false} FocusTop(s: Store, root: RbNode?, k: Ctx, t: Tree, x: RbNode?, p: RbNode?)
    requires Holds(s, root, k, t, x, p)
    ensures Holds(s, root, Top, Plug(k, t), root, null)
    ensures Nodes(Plug(k, t)) == Nodes(t) + CtxNodes(k)
    decreases k
  {
    if !k.Top? {
      FocusUp(s, root, k, t, x, p);
      FocusTop(s, root, k.up, Fill(k, t), p, s[k.n].parent);
    }
  }

  /** Changing the colour of the node in focus. */
  lemma PaintHolds(s: Store, s': Store, root: RbNode?, k: Ctx, t: Tree, p: RbNode?, red: bool)
    requires t.Node? && t.n in s && Holds(s, root, k, t, t.n, p)
    requires s' == s[t.n := s[t.n].(red := red)]
    ensures Holds(s', root, k, t.(red := red), t.n, p)
  {
    RepFrame(s, s', t.l, s[t.n].left, t.n);
    RepFrame(s, s', t.r, s[t.n].right, t.n);
    RepCtxFrame(s, s', k, t.n, p, root, null);
  }

  /** Both children of the node in focus turn black and the node itself red. */
  lemma RecolorHolds(s: Store, s': Store, root: RbNode?, k: Ctx, t: Tree, p: RbNode?)
    requires t.Node? && t.l.Node? && t.r.Node? && Holds(s, root, k, t, t.n, p)
    requires {t.n, t.l.n, t.r.n} <= s.Keys
    requires s' == s[t.l.n := s[t.l.n].(red := false)][t.r.n := s[t.r.n].(red := false)][t.n := s[t.n].(red := true)]
    ensures Holds(s', root, k, Node(Blacken(t.l), t.n, true, Blacken(t.r)), t.n, p)
  {
    FocusLeft(s, root, k, t, t.n, p);
    var s1 := s[t.l.n := s[t.l.n].(red := false)];
    PaintHolds(s, s1, root, InLeft(k, t.n, t.red, t.r), t.l, t.n, false);
    var t1 := Node(Blacken(t.l), t.n, t.red, t.r);
    FocusUp(s1, root, InLeft(k, t.n, t.red, t.r), Blacken(t.l), t.l.n, t.n);
    FocusRight(s1, root, k, t1, t.n, p);
    var s2 := s1[t.r.n := s1[t.r.n].(red := false)];
    PaintHolds(s1, s2, root, InRight(Blacken(t.l), t.n, t.red, k), t.r, t.n, false);
    FocusUp(s2, root, InRight(Blacken(t.l), t.n, t.red, k), Blacken(t.r), t.r.n, t.n);
    PaintHolds(s2, s', root, k, Node(Blacken(t.l), t.n, t.red, Blacken(t.r)), p, true);
  }

  ghost function Sibling(k: Ctx): Tree
    requires !k.Top?
  {
    if k.InLeft? then k.r else k.l
  }

  /** The context of the sibling, `t` being what stood in the hole. */
  ghost function Across(k: Ctx, t: Tree): Ctx
    requires !k.Top?
  {
    if k.InLeft? then InRight(t, k.n, k.red, k.up) else InLeft(k.up, k.n, k.red, t)
  }

  ghost function SiblingPointer(c: Cell, k: Ctx): RbNode? {
    if k.InLeft? then c.right else c.left
  }

  /** Moving the focus to the sibling. */
  lemma FocusAcross(s: Store, root: RbNode?, k: Ctx, t: Tree, x: RbNode?, p: RbNode?)
    requires !k.Top? && Holds(s, root, k, t, x, p)
    ensures p == k.n && k.n in s
    ensures Holds(s, root, Across(k, t), Sibling(k), SiblingPointer(s[k.n], k), p)
    ensures Nodes(Sibling(k)) + CtxNodes(Across(k, t)) == Nodes(t) + CtxNodes(k)
  {}

  /** What the child pointers of the node in focus say about the trees below. */
  lemma ChildPointers(s: Store, root: RbNode?, k: Ctx, t: Tree, x: RbNode?, p: RbNode?)
    requires t.Node? && Holds(s, root, k, t, x, p)
    ensures x == t.n && t.n in s && t.n in Nodes(t) && s[t.n].red == t.red
    ensures if t.l.Leaf? then s[t.n].left == null
            else s[t.n].left == t.l.n && t.l.n in s && t.l.n in Nodes(t) && s[t.l.n].red == t.l.red
    ensures if t.r.Leaf? then s[t.n].right == null
            else s[t.n].right == t.r.n && t.r.n in s && t.r.n in Nodes(t) && s[t.r.n].red == t.r.red
  {
    assert Rep(s, t.l, s[t.n].left, t.n) && Rep(s, t.r, s[t.n].right, t.n);
  }

  /** What the pointers above the node in focus say about the context. */
  lemma HolePointers(s: Store, root: RbNode?, k: Ctx, t: Tree, x: RbNode?, p: RbNode?)
    requires t.Node? && Holds(s, root, k, t, x, p)
    ensures x == t.n && t.n in s && s[t.n].parent == p
    ensures if k.Top? then p == null && root == x
            else p == k.n && p in s && p in CtxNodes(k) && p !in Nodes(t) && p != x &&
                 (s[p].left == x <==> k.InLeft?) && (s[p].right == x <==> k.InRight?)
  {}

  /** The parent of the focus and its colour. */
  lemma ParentPointer(s: Store, root: RbNode?, k: Ctx, t: Tree, x: RbNode?, p: RbNode?)
    requires Holds(s, root, k, t, x, p)
    ensures if k.Top? then p == null else p == k.n && p in s && s[p].red == k.red
  {}

  /** The root pointer is the pointer in focus exactly when there is no context. */
  lemma {:induction false} RootPointer(s: Store, root: RbNode?, k: Ctx, t: Tree, x: RbNode?, p: RbNode?)
    requires Holds(s, root, k, t, x, p)
    ensures k.Top? <==> x == root
  {
    if !k.Top? {
      RootInCtx(s, k, x, p, root, null);
    }
  }

  lemma {:induction false} RootInCtx(s: Store, k: Ctx, x: RbNode?, p: RbNode?, rx: RbNode?, rp: RbNode?)
    requires RepCtx(s, k, x, p, rx, rp) && !k.Top?
    ensures rx != null && rx in CtxNodes(k)
  {
    if !k.up.Top? {
      RootInCtx(s, k.up, p, s[k.n].parent, rx, rp);
    }
  }

  /** With a sibling present, the parent's left pointer tells on which side the focus is. */
  lemma FocusSide(s: Store, root: RbNode?, k: Ctx, t: Tree, x: RbNode?, p: RbNode?)
    requires Holds(s, root, k, t, x, p) && !k.Top? && Sibling(k).Node?
    ensures p == k.n && k.n in s && k.n in CtxNodes(k)
    ensures s[k.n].left == x <==> k.InLeft?
  {
    FocusAcross(s, root, k, t, x, p);
  }

  // ----- taking a node out ----------------------------------------------------------------------

  ghost function OnlyChild(t: Tree): Tree
    requires t.Node?
  {
    if t.l.Leaf? then t.r else t.l
  }

  ghost function HoleNode(k: Ctx): set<RbNode> {
    if k.Top? then {} else {k.n}
  }

  ghost function Opt(x: RbNode?): set<RbNode> {
    if x == null then {} else {x}
  }

  /** What unlinking `x` writes, `c` being its child: the child's parent, and the parent's child. */
  ghost predicate Unlinked(s: Store, s': Store, root: RbNode?, root': RbNode?, x: RbNode, c: RbNode?)
    requires x in s
  {
    var p := s[x].parent;
    && (c != null && c in s ==> c in s' && s'[c] == s[c].(parent := p))
    && (if p == null then root' == c else root' == root && (p in s ==> p in s' && s'[p] == Relink(s[p], x, c)))
    && Same(s, s', s.Keys - {x} - Opt(c) - Opt(p))
  }

  /** What putting `y` in the place of `x` writes. */
  ghost predicate Substituted(s: Store, s': Store, root: RbNode?, root': RbNode?, x: RbNode, y: RbNode)
    requires x in s
  {
    var p, l, r := s[x].parent, s[x].left, s[x].right;
    && y in s' && s'[y] == s[x]
    && (l != null && l in s ==> l in s' && s'[l] == s[l].(parent := y))
    && (r != null && r in s ==> r in s' && s'[r] == s[r].(parent := y))
    && (if p == null then root' == y else root' == root && (p in s ==> p in s' && s'[p] == Relink(s[p], x, y)))
    && Same(s, s', s.Keys - {x, y} - Opt(l) - Opt(r) - Opt(p))
  }

  /** The two halves of that: the parent's link, and the children's. */
  ghost predicate Placed(s: Store, s': Store, root: RbNode?, root': RbNode?, x: RbNode, y: RbNode)
    requires x in s
  {
    var p := s[x].parent;
    && s'.Keys == s.Keys
    && (if p == null then root' == y else root' == root && (p in s ==> s'[p] == Relink(s[p], x, y)))
    && Same(s, s', s.Keys - Opt(p))
  }

  ghost predicate Adopted(s: Store, s': Store, y: RbNode, l: RbNode, r: RbNode?) {
    && s'.Keys == s.Keys
    && (l in s ==> s'[l] == s[l].(parent := y))
    && (r != null && r in s ==> s'[r] == s[r].(parent := y))
    && Same(s, s', s.Keys - {l} - Opt(r))
  }

  lemma BothHalves(s: Store, s1: Store, s2: Store, s': Store, root: RbNode?, root': RbNode?, x: RbNode, y: RbNode)
    requires x in s && y !in s && s[x].left != null && Placed(s, s1, root, root', x, y)
    requires Opt(s[x].parent) + Opt(s[x].left) + Opt(s[x].right) <= s.Keys - {x}
    requires Opt(s[x].parent) !! Opt(s[x].left) + Opt(s[x].right) && s[x].left != s[x].right
    requires Adopted(s1, s2, y, s[x].left, s[x].right)
    requires y in s' && s'[y] == s[x] && Same(s2, s', s.Keys - {x})
    ensures Substituted(s, s', root, root', x, y)
  {}

  /** A node with at most one child is replaced by that child. */
  lemma UnlinkHolds(s: Store, s': Store, root: RbNode?, root': RbNode?, k: Ctx, t: Tree, p: RbNode?, c: RbNode?)
    requires t.Node? && Holds(s, root, k, t, t.n, p) && (t.l.Leaf? || t.r.Leaf?)
    requires t.n in s && c == (if t.l.Leaf? then s[t.n].right else s[t.n].left)
    requires Unlinked(s, s', root, root', t.n, c)
    ensures Holds(s', root', k, OnlyChild(t), c, p)
    ensures Nodes(OnlyChild(t)) + CtxNodes(k) == Nodes(t) + CtxNodes(k) - {t.n}
  {
    ChildPointers(s, root, k, t, t.n, p);
    HolePointers(s, root, k, t, t.n, p);
    RepAdopt(s, s', OnlyChild(t), c, t.n, p);
    RepCtxRelink(s, s', k, t.n, c, p, root, root', null);
  }

  /** The node `y` takes the place and the cell of the node in focus. */
  lemma SubstituteSeparate(k: Ctx, t: Tree, y: RbNode)
    requires t.Node? && Separate(k, t) && y !in Nodes(t) && y !in CtxNodes(k)
    ensures Separate(k, Node(t.l, y, t.red, t.r))
    ensures Nodes(Node(t.l, y, t.red, t.r)) + CtxNodes(k) == Nodes(t) + CtxNodes(k) - {t.n} + {y}
  {}

  lemma SubstituteBelow(s: Store, s': Store, root: RbNode?, root': RbNode?, k: Ctx, t: Tree, p: RbNode?, y: RbNode)
    requires t.Node? && Holds(s, root, k, t, t.n, p) && y !in Nodes(t) && y !in CtxNodes(k)
    requires t.n in s && Substituted(s, s', root, root', t.n, y)
    ensures Rep(s', Node(t.l, y, t.red, t.r), y, p)
  {
    ChildPointers(s, root, k, t, t.n, p);
    HolePointers(s, root, k, t, t.n, p);
    RepAdopt(s, s', t.l, s[t.n].left, t.n, y);
    RepAdopt(s, s', t.r, s[t.n].right, t.n, y);
  }

  lemma SubstituteHolds(s: Store, s': Store, root: RbNode?, root': RbNode?, k: Ctx, t: Tree, p: RbNode?, y: RbNode)
    requires t.Node? && Holds(s, root, k, t, t.n, p) && y !in Nodes(t) && y !in CtxNodes(k)
    requires t.n in s && Substituted(s, s', root, root', t.n, y)
    ensures Holds(s', root', k, Node(t.l, y, t.red, t.r), y, p)
    ensures Nodes(Node(t.l, y, t.red, t.r)) + CtxNodes(k) == Nodes(t) + CtxNodes(k) - {t.n} + {y}
  {
    SubstituteSeparate(k, t, y);
    SubstituteBelow(s, s', root, root', k, t, p, y);
    ChildPointers(s, root, k, t, t.n, p);
    HolePointers(s, root, k, t, t.n, p);
    RepCtxRelink(s, s', k, t.n, y, p, root, root', null);
  }

  // ----- composed contexts ----------------------------------------------------------------------

  /** The context `seg` continued by `base`. */
  ghost function Graft(seg: Ctx, base: Ctx): Ctx {
    match seg
    case Top => base
    case InLeft(up, n, red, r) => InLeft(Graft(up, base), n, red, r)
    case InRight(l, n, red, up) => InRight(l, n, red, Graft(up, base))
  }

  /** The focus at the end of a composed context, and at the joint. */
  lemma {:induction false} GraftUp(s: Store, root: RbNode?, seg: Ctx, base: Ctx, t: Tree, x: RbNode?, p: RbNode?)
    requires !base.Top? && Holds(s, root, Graft(seg, base), t, x, p)
    ensures base.n in s
    ensures Holds(s, root, base, Plug(seg, t), if base.InLeft? then s[base.n].left else s[base.n].right, base.n)
    ensures Nodes(Plug(seg, t)) + CtxNodes(base) == Nodes(t) + CtxNodes(Graft(seg, base))
    decreases seg
  {
    if !seg.Top? {
      FocusUp(s, root, Graft(seg, base), t, x, p);
      GraftUp(s, root, seg.up, base, Fill(seg, t), p, s[seg.n].parent);
    }
  }

  /** The pointer and the parent found at the end of a composed context. */
  ghost function HolePointer(s: Store, seg: Ctx, x: RbNode?): RbNode? {
    match seg
    case Top => x
    case InLeft(_, n, _, _) => if n in s then s[n].left else null
    case InRight(_, n, _, _) => if n in s then s[n].right else null
  }

  lemma {:induction false} GraftDown(s: Store, root: RbNode?, seg: Ctx, base: Ctx, t: Tree, x: RbNode?, p: RbNode?)
    requires Holds(s, root, base, Plug(seg, t), x, p)
    ensures Holds(s, root, Graft(seg, base), t, HolePointer(s, seg, x), if seg.Top? then p else seg.n)
    ensures Nodes(Plug(seg, t)) + CtxNodes(base) == Nodes(t) + CtxNodes(Graft(seg, base))
    decreases seg
  {
    if !seg.Top? {
      var f := Fill(seg, t);
      GraftDown(s, root, seg.up, base, f, x, p);
      var x', p' := HolePointer(s, seg.up, x), if seg.up.Top? then p else seg.up.n;
      if seg.InLeft? {
        FocusLeft(s, root, Graft(seg.up, base), f, x', p');
      } else {
        FocusRight(s, root, Graft(seg.up, base), f, x', p');
      }
    }
  }

  /** The joint of a composed context is not the innermost node, unless it is all there is. */
  lemma {:induction false} GraftJoint(seg: Ctx, base: Ctx)
    requires !base.Top? && CtxDistinct(Graft(seg, base))
    ensures base.n in CtxNodes(Graft(seg, base))
    ensures !seg.Top? ==> seg.n != base.n
  {
    if !seg.Top? {
      GraftJoint(seg.up, base);
    }
  }

  /** The pointer to a tree is determined by the tree. */
  lemma FocusPointer(s: Store, root: RbNode?, k: Ctx, t: Tree, x: RbNode?, p: RbNode?)
    requires Holds(s, root, k, t, x, p)
    ensures x == if t.Leaf? then null else t.n
    ensures p == if k.Top? then null else k.n
  {}

  /** After the successor took the place of its ancestor, the focus is again on its old child. */
  lemma SplicedFocus(s: Store, root: RbNode?, seg: Ctx, base: Ctx, sr: Tree, x: RbNode?, p: RbNode?) returns (child: RbNode?, parent: RbNode?)
    requires Holds(s, root, base, Plug(seg, sr), x, p)
    ensures Holds(s, root, Graft(seg, base), sr, child, parent)
    ensures child == (if sr.Leaf? then null else sr.n) && parent == if seg.Top? then p else seg.n
    ensures Nodes(Plug(seg, sr)) + CtxNodes(base) == Nodes(sr) + CtxNodes(Graft(seg, base))
  {
    GraftDown(s, root, seg, base, sr, x, p);
    child, parent := HolePointer(s, seg, x), if seg.Top? then p else seg.n;
    FocusPointer(s, root, Graft(seg, base), sr, child, parent);
  }

  // ----- putting a node in ----------------------------------------------------------------------

  /** `rb_link_node`: a fresh red node without children hangs where the context has its hole. */
  ghost function HungAt(c: Cell, n: RbNode, right: bool): Cell {
    if right then c.(right := n) else c.(left := n)
  }

  lemma LinkHolds(s: Store, s': Store, root: RbNode?, root': RbNode?, k: Ctx, p: RbNode?, n: RbNode)
    requires Holds(s, root, k, Leaf, null, p) && n !in CtxNodes(k)
    requires n in s' && s'[n] == Cell(null, null, p, true)
    requires if k.Top? then root' == n
      else root' == root && k.n in s && k.n in s' && s'[k.n] == if k.InLeft? then s[k.n].(left := n) else s[k.n].(right := n)
    requires Same(s, s', CtxNodes(k) - HoleNode(k))
    ensures Holds(s', root', k, Node(Leaf, n, true, Leaf), n, p)
  {
    match k
    case Top =>
    case InLeft(up, m, _, r) =>
      RepFrame(s, s', r, s[m].right, m);
      RepCtxFrame(s, s', up, m, s[m].parent, root, null);
    case InRight(l, m, _, up) =>
      RepFrame(s, s', l, s[m].left, m);
      RepCtxFrame(s, s', up, m, s[m].parent, root, null);
  }

  /** The focus moved up to the grandparent. */
  lemma FocusGrandparent(s: Store, root: RbNode?, k: Ctx, t: Tree, x: RbNode?, p: RbNode?)
    requires !k.Top? && !k.up.Top? && Holds(s, root, k, t, x, p)
    ensures k.up.n in s && Holds(s, root, k.up.up, Fill(k.up, Fill(k, t)), k.up.n, s[k.up.n].parent)
    ensures Nodes(Fill(k.up, Fill(k, t))) + CtxNodes(k.up.up) == Nodes(t) + CtxNodes(k)
  {
    FocusUp(s, root, k, t, x, p);
    FocusUp(s, root, k.up, Fill(k, t), p, s[k.n].parent);
  }

  /** The other child of the grandparent. */
  lemma UnclePointer(s: Store, root: RbNode?, k: Ctx, t: Tree, x: RbNode?, p: RbNode?)
    requires !k.Top? && !k.up.Top? && Holds(s, root, k, t, x, p)
    ensures k.up.n in s && k.up.n in CtxNodes(k)
    ensures var u, c := Sibling(k.up), SiblingPointer(s[k.up.n], k.up);
      if u.Leaf? then c == null else c == u.n && c in s && c in CtxNodes(k) && s[c].red == u.red
  {
    FocusUp(s, root, k, t, x, p);
    FocusAcross(s, root, k.up, Fill(k, t), p, s[k.n].parent);
  }
}
