/** The order of the keys, and what a walk from the root to a key has left behind on both sides.
    Smaller keys are to the right: the in-order sequence descends. */
module RbSearch {
  import opened Entries
  import opened RbShape
  import opened RbBalance

  /** A marker that tells the verifier which chain of keys to apply transitivity to. */
  ghost predicate Chain(a: Key, b: Key, c: Key) { true }

  /** `key_cmp` as a total order. */
  ghost predicate TotalOrder(cmp: (Key, Key) -> int) {
    && (forall a, b :: cmp(a, b) == 0 <==> a == b)
    && (forall a, b :: cmp(a, b) < 0 <==> cmp(b, a) > 0)
    && (forall a, b, c {:trigger Chain(a, b, c)} :: cmp(a, b) < 0 && cmp(b, c) < 0 ==> cmp(a, c) < 0)
  }

  ghost predicate Descending(cmp: (Key, Key) -> int, ns: seq<RbNode>) {
    forall i, j :: 0 <= i < j < |ns| ==> cmp(ns[j].key, ns[i].key) < 0
  }

  ghost predicate AllAbove(cmp: (Key, Key) -> int, key: Key, ns: seq<RbNode>) {
    forall i :: 0 <= i < |ns| ==> cmp(key, ns[i].key) < 0
  }

  ghost predicate AllBelow(cmp: (Key, Key) -> int, key: Key, ns: seq<RbNode>) {
    forall i :: 0 <= i < |ns| ==> cmp(key, ns[i].key) > 0
  }

  /** The walk for `key` has come to the hole of `k` for good reasons. */
  ghost predicate OnPath(cmp: (Key, Key) -> int, key: Key, k: Ctx) {
    AllAbove(cmp, key, Before(k)) && AllBelow(cmp, key, After(k))
  }

  ghost function EntriesOf(ns: seq<RbNode>): seq<Entry> {
    seq(|ns|, i requires 0 <= i < |ns| => Entry(ns[i].key, ns[i].data))
  }

  /** In a descending sequence a node splits the others into larger and smaller ones. */
  lemma Around(cmp: (Key, Key) -> int, p: seq<RbNode>, n: RbNode, q: seq<RbNode>)
    requires Descending(cmp, p + [n] + q)
    ensures forall i :: 0 <= i < |p| ==> cmp(n.key, p[i].key) < 0
    ensures forall i :: 0 <= i < |q| ==> cmp(q[i].key, n.key) < 0
  {
    var sq := p + [n] + q;
    assert sq[|p|] == n;
    forall i | 0 <= i < |p|
      ensures cmp(n.key, p[i].key) < 0
    {
      assert sq[i] == p[i];
    }
    forall i | 0 <= i < |q|
      ensures cmp(q[i].key, n.key) < 0
    {
      assert sq[|p| + 1 + i] == q[i];
    }
  }

  lemma SequenceAround(k: Ctx, t: Tree)
    requires t.Node?
    ensures Sequence(k, t) == (Before(k) + Inorder(t.l)) + [t.n] + (Inorder(t.r) + After(k))
    ensures Without(k, t) == (Before(k) + Inorder(t.l)) + (Inorder(t.r) + After(k))
  {}

  lemma AboveMore(cmp: (Key, Key) -> int, key: Key, p: seq<RbNode>, n: RbNode)
    requires TotalOrder(cmp) && cmp(key, n.key) < 0 && forall i :: 0 <= i < |p| ==> cmp(n.key, p[i].key) < 0
    ensures AllAbove(cmp, key, p + [n])
  {
    forall i | 0 <= i < |p|
      ensures cmp(key, p[i].key) < 0
    {
      assert Chain(key, n.key, p[i].key);
    }
  }

  lemma BelowMore(cmp: (Key, Key) -> int, key: Key, n: RbNode, q: seq<RbNode>)
    requires TotalOrder(cmp) && cmp(key, n.key) > 0 && forall i :: 0 <= i < |q| ==> cmp(q[i].key, n.key) < 0
    ensures AllBelow(cmp, key, [n] + q)
  {
    forall i | 0 <= i < |q|
      ensures cmp(key, q[i].key) > 0
    {
      assert Chain(q[i].key, n.key, key);
    }
  }

  lemma StepRight(cmp: (Key, Key) -> int, key: Key, k: Ctx, t: Tree)
    requires TotalOrder(cmp) && t.Node? && Descending(cmp, Sequence(k, t)) && OnPath(cmp, key, k)
    requires cmp(key, t.n.key) < 0
    ensures OnPath(cmp, key, InRight(t.l, t.n, t.red, k))
  {
    var p := Before(k) + Inorder(t.l);
    SequenceAround(k, t);
    Around(cmp, p, t.n, Inorder(t.r) + After(k));
    AboveMore(cmp, key, p, t.n);
  }

  lemma StepLeft(cmp: (Key, Key) -> int, key: Key, k: Ctx, t: Tree)
    requires TotalOrder(cmp) && t.Node? && Descending(cmp, Sequence(k, t)) && OnPath(cmp, key, k)
    requires cmp(key, t.n.key) > 0
    ensures OnPath(cmp, key, InLeft(k, t.n, t.red, t.r))
  {
    var q := Inorder(t.r) + After(k);
    SequenceAround(k, t);
    Around(cmp, Before(k) + Inorder(t.l), t.n, q);
    BelowMore(cmp, key, t.n, q);
    Assoc([t.n], Inorder(t.r), After(k));
  }

  /** A walk that ends in a leaf has seen that the key is not there. */
  lemma LeafNotFound(cmp: (Key, Key) -> int, key: Key, k: Ctx)
    requires TotalOrder(cmp) && OnPath(cmp, key, k)
    ensures !HasKey(EntriesOf(Sequence(k, Leaf)), key)
  {
    var sq := Sequence(k, Leaf);
    forall i | 0 <= i < |sq|
      ensures sq[i].key != key
    {
      assert sq[i] == if i < |Before(k)| then Before(k)[i] else After(k)[i - |Before(k)|];
    }
  }

  /** A node between larger and smaller ones keeps a sequence descending, and can be taken out. */
  lemma DescendingInsert(cmp: (Key, Key) -> int, p: seq<RbNode>, n: RbNode, q: seq<RbNode>)
    requires TotalOrder(cmp) && Descending(cmp, p + q) && AllAbove(cmp, n.key, p) && AllBelow(cmp, n.key, q)
    ensures Descending(cmp, p + [n] + q)
  {
    var sq, sq' := p + q, p + [n] + q;
    forall i, j | 0 <= i < j < |sq'|
      ensures cmp(sq'[j].key, sq'[i].key) < 0
    {
      if i != |p| && j != |p| {
        assert sq'[i] == sq[if i < |p| then i else i - 1] && sq'[j] == sq[if j < |p| then j else j - 1];
      }
    }
  }

  lemma DescendingDelete(cmp: (Key, Key) -> int, p: seq<RbNode>, n: RbNode, q: seq<RbNode>)
    requires Descending(cmp, p + [n] + q)
    ensures Descending(cmp, p + q)
  {
    var sq, sq' := p + [n] + q, p + q;
    forall i, j | 0 <= i < j < |sq'|
      ensures cmp(sq'[j].key, sq'[i].key) < 0
    {
      assert sq'[i] == sq[if i < |p| then i else i + 1] && sq'[j] == sq[if j < |p| then j else j + 1];
    }
  }

  lemma EntriesAround(p: seq<RbNode>, n: RbNode, q: seq<RbNode>)
    ensures EntriesOf(p + [n] + q) == Added(EntriesOf(p + q), |p|, Entry(n.key, n.data))
    ensures EntriesOf(p + [n] + q)[|p|] == Entry(n.key, n.data)
    ensures EntriesOf(p + q) == Removed(EntriesOf(p + [n] + q), |p|)
  {}

  lemma LeafSequence(k: Ctx, n: RbNode)
    ensures Sequence(k, Leaf) == Before(k) + After(k)
    ensures Sequence(k, Node(Leaf, n, true, Leaf)) == Before(k) + [n] + After(k)
  {
    assert Inorder(Node(Leaf, n, true, Leaf)) == [n];
  }

  /** A new node at that leaf keeps the order. */
  lemma LeafInserted(cmp: (Key, Key) -> int, k: Ctx, n: RbNode)
    requires TotalOrder(cmp) && OnPath(cmp, n.key, k) && Descending(cmp, Sequence(k, Leaf))
    ensures Descending(cmp, Sequence(k, Node(Leaf, n, true, Leaf)))
    ensures EntriesOf(Sequence(k, Node(Leaf, n, true, Leaf)))
      == Added(EntriesOf(Sequence(k, Leaf)), |Before(k)|, Entry(n.key, n.data))
  {
    LeafSequence(k, n);
    DescendingInsert(cmp, Before(k), n, After(k));
    EntriesAround(Before(k), n, After(k));
  }

  /** Taking out the node in focus keeps the order and takes out one entry. */
  lemma NodeRemoved(cmp: (Key, Key) -> int, k: Ctx, t: Tree)
    requires t.Node? && Descending(cmp, Sequence(k, t))
    ensures Descending(cmp, Without(k, t))
    ensures var i := |Before(k)| + |Inorder(t.l)|; var es := EntriesOf(Sequence(k, t));
      i < |es| && es[i] == Entry(t.n.key, t.n.data) && EntriesOf(Without(k, t)) == Removed(es, i)
  {
    SequenceAround(k, t);
    DescendingDelete(cmp, Before(k) + Inorder(t.l), t.n, Inorder(t.r) + After(k));
    EntriesAround(Before(k) + Inorder(t.l), t.n, Inorder(t.r) + After(k));
  }

  /** Where the node in focus stands in the sequence. */
  ghost function Place(k: Ctx, t: Tree): nat
    requires t.Node?
  {
    |Before(k)| + |Inorder(t.l)|
  }

  /** The node in focus is an entry of the sequence. */
  lemma FoundAt(cmp: (Key, Key) -> int, k: Ctx, t: Tree, ns: seq<RbNode>)
    requires t.Node? && Sequence(k, t) == ns && Descending(cmp, ns)
    ensures Place(k, t) < |EntriesOf(ns)| && EntriesOf(ns)[Place(k, t)] == Entry(t.n.key, t.n.data) && HasKey(EntriesOf(ns), t.n.key)
  {
    NodeRemoved(cmp, k, t);
  }

  lemma RemovedAt(cmp: (Key, Key) -> int, k: Ctx, t: Tree, es: seq<Entry>)
    requires t.Node? && Descending(cmp, Sequence(k, t)) && es == EntriesOf(Sequence(k, t)) && Place(k, t) < |es|
    ensures Descending(cmp, Without(k, t)) && EntriesOf(Without(k, t)) == Removed(es, Place(k, t))
  {
    NodeRemoved(cmp, k, t);
  }

  /** The search loop's invariant: the walk for `key` in `tree` has its focus on `t`. */
  ghost predicate Walk(s: Store, root: RbNode?, tree: Tree, cmp: (Key, Key) -> int, key: Key,
                       k: Ctx, t: Tree, x: RbNode?, p: RbNode?, h: nat)
  {
    && Holds(s, root, k, t, x, p) && Nodes(tree) == Nodes(t) + CtxNodes(k) && Sound(k, t, h)
    && Sequence(k, t) == Inorder(tree) && OnPath(cmp, key, k) && Depth(k) + Height(t) <= Height(tree)
  }

  lemma WalkRight(s: Store, root: RbNode?, tree: Tree, cmp: (Key, Key) -> int, key: Key,
                  k: Ctx, t: Tree, x: RbNode?, p: RbNode?, h: nat)
    requires Walk(s, root, tree, cmp, key, k, t, x, p, h) && TotalOrder(cmp) && Descending(cmp, Inorder(tree))
    requires t.Node? && cmp(key, t.n.key) < 0
    ensures t.n in s && Walk(s, root, tree, cmp, key, InRight(t.l, t.n, t.red, k), t.r, s[t.n].right, t.n, Below(h, t.red))
  {
    FocusRight(s, root, k, t, x, p);
    StepRight(cmp, key, k, t);
    FillSequence(InRight(t.l, t.n, t.red, k), t.r);
  }

  lemma WalkLeft(s: Store, root: RbNode?, tree: Tree, cmp: (Key, Key) -> int, key: Key,
                 k: Ctx, t: Tree, x: RbNode?, p: RbNode?, h: nat)
    requires Walk(s, root, tree, cmp, key, k, t, x, p, h) && TotalOrder(cmp) && Descending(cmp, Inorder(tree))
    requires t.Node? && cmp(key, t.n.key) > 0
    ensures t.n in s && Walk(s, root, tree, cmp, key, InLeft(k, t.n, t.red, t.r), t.l, s[t.n].left, t.n, Below(h, t.red))
  {
    FocusLeft(s, root, k, t, x, p);
    StepLeft(cmp, key, k, t);
    FillSequence(InLeft(k, t.n, t.red, t.r), t.l);
  }
}
