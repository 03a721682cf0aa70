/** The snapshot of a tree that the iterator works on: `hi_rbtree_traverse` and
    `lhi_rbtree_bucket_to_array`. */
module RbSnapshot {
  import opened Entries
  import opened RbShape
  import opened RbBalance
  import opened RbSearch
  import opened RbTree
  import opened Options

  /** The entries of a tree, each node before its subtrees. */
  ghost function Preorder(t: Tree): seq<Entry> {
    match t
    case Leaf => []
    case Node(l, n, _, r) => [Entry(n.key, n.data)] + Preorder(l) + Preorder(r)
  }

  lemma EntriesConcat(a: seq<RbNode>, n: RbNode, b: seq<RbNode>)
    ensures EntriesOf(a + [n] + b) == EntriesOf(a) + [Entry(n.key, n.data)] + EntriesOf(b)
  {}

  /** The same entries as in order, each as often. */
  lemma {:induction false} PreorderPermutes(t: Tree)
    ensures multiset(Preorder(t)) == multiset(EntriesOf(Inorder(t)))
    ensures |Preorder(t)| == |Inorder(t)|
  {
    match t
    case Leaf =>
    case Node(l, n, _, r) =>
      PreorderPermutes(l);
      PreorderPermutes(r);
      EntriesConcat(Inorder(l), n, Inorder(r));
  }

  /** The array after `es` was written to it from position `pos` on. */
  ghost function Written(a: seq<Option<Entry>>, pos: nat, es: seq<Entry>): (r: seq<Option<Entry>>)
    requires pos + |es| <= |a|
    ensures |r| == |a|
  {
    a[..pos] + Somes(es) + a[pos + |es|..]
  }

  /** `hi_rbtree_traverse`; the tree of `rbnode` is `t`, in the memory `s`. */
  method Traverse(root: RbRoot, rbnode: RbNode, pos: nat, a: array<Option<Entry>>, ghost s: Store, ghost t: Tree, ghost p: RbNode?) returns (next: nat)
    requires t.Node? && s == root.Store() && Rep(s, t, rbnode, p) && pos + |Preorder(t)| <= a.Length
    modifies a
    ensures next == pos + |Preorder(t)| && a[..] == Written(old(a[..]), pos, Preorder(t))
    decreases t, 3
  {
    ghost var l, r := Preorder(t.l), Preorder(t.r);
    ChildReps(s, t, rbnode, p);
    next := TraverseNode(root, rbnode, pos, a, s, t, l, r);
  }

  method TraverseNode(root: RbRoot, rbnode: RbNode, pos: nat, a: array<Option<Entry>>, ghost s: Store, ghost t: Tree,
                      ghost l: seq<Entry>, ghost r: seq<Entry>) returns (next: nat)
    requires t.Node? && l == Preorder(t.l) && r == Preorder(t.r) && s == root.Store() && rbnode == t.n
    requires Rep(s, t.l, rbnode.left, t.n) && Rep(s, t.r, rbnode.right, t.n) && pos + 1 + |l| + |r| <= a.Length
    modifies a
    ensures next == pos + 1 + |l| + |r| && a[..] == Written(old(a[..]), pos, [Entry(rbnode.key, rbnode.data)] + l + r)
    decreases t, 2
  {
    ghost var was, e := a[..], Entry(rbnode.key, rbnode.data);
    next := TraverseBoth(root, rbnode.left, rbnode.right, pos + 1, a, s, t, l, r);
    Put(a, pos, Entry(rbnode.key, rbnode.data));
    assert a[..] == Written(Written(was, pos + 1, l), pos + 1 + |l|, r)[pos := Some(e)];
    Join(was, pos, e, l, r);
  }

  method TraverseBoth(root: RbRoot, left: RbNode?, right: RbNode?, pos: nat, a: array<Option<Entry>>, ghost s: Store, ghost t: Tree,
                      ghost l: seq<Entry>, ghost r: seq<Entry>) returns (next: nat)
    requires t.Node? && l == Preorder(t.l) && r == Preorder(t.r) && s == root.Store()
    requires Rep(s, t.l, left, t.n) && Rep(s, t.r, right, t.n) && pos + |l| + |r| <= a.Length
    modifies a
    ensures next == pos + |l| + |r| && a[..] == Written(Written(old(a[..]), pos, l), pos + |l|, r)
    decreases t, 1
  {
    next := TraverseChild(root, left, pos, a, s, t.l, t.n);
    next := TraverseChild(root, right, next, a, s, t.r, t.n);
  }

  method Put(a: array<Option<Entry>>, pos: nat, e: Entry)
    requires pos < a.Length
    modifies a
    ensures a[..] == old(a[..])[pos := Some(e)]
  {
    if pos < a.Length {
      a[pos] := Some(e);
    }
  }

  method TraverseChild(root: RbRoot, child: RbNode?, pos: nat, a: array<Option<Entry>>, ghost s: Store, ghost t: Tree, ghost p: RbNode?) returns (next: nat)
    requires s == root.Store() && Rep(s, t, child, p) && pos + |Preorder(t)| <= a.Length
    modifies a
    ensures next == pos + |Preorder(t)| && a[..] == Written(old(a[..]), pos, Preorder(t))
    decreases t, 4
  {
    next := pos;
    if child != null {
      next := Traverse(root, child, pos, a, s, t, p);
    }
  }

  lemma ChildReps(s: Store, t: Tree, x: RbNode, p: RbNode?)
    requires t.Node? && Rep(s, t, x, p)
    ensures x == t.n && x in s && Rep(s, t.l, s[x].left, x) && Rep(s, t.r, s[x].right, x)
  {}

  lemma Join(a: seq<Option<Entry>>, pos: nat, e: Entry, l: seq<Entry>, r: seq<Entry>)
    requires pos + 1 + |l| + |r| <= |a|
    ensures Written(Written(a, pos + 1, l), pos + 1 + |l|, r)[pos := Some(e)] == Written(a, pos, [e] + l + r)
  {}

  /** `lhi_rbtree_bucket_to_array` for a tree that is not empty. */
  method ToArray(root: RbRoot, cmp: (Key, Key) -> int, max: nat) returns (a: array<Option<Entry>>)
    requires root.Valid(cmp) && root.root != null && max == |root.Contents()|
    ensures fresh(a) && a[..] == Somes(Preorder(root.tree))
    ensures multiset(Preorder(root.tree)) == multiset(root.Contents())
  {
    a := new Option<Entry>[max](_ => None);
    PreorderPermutes(root.tree);
    ghost var a0, es := a[..], Preorder(root.tree);
    var n := Traverse(root, root.root, 0, a, root.Store(), root.tree, null);
    WrittenAll(a0, es);
  }

  lemma WrittenAll(a: seq<Option<Entry>>, es: seq<Entry>)
    requires |a| == |es|
    ensures Written(a, 0, es) == Somes(es)
  {}

  /** A tree without a root pointer has no entries, and only that one. */
  lemma EmptyTree(root: RbRoot, cmp: (Key, Key) -> int)
    requires root.Valid(cmp)
    ensures root.root == null <==> |root.Contents()| == 0
  {}
}
