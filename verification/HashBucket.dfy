/** One bucket of a table: the switch over the collision engines of `hi_operations.c`. */
module HashBucket {
  import opened Entries
  import opened RbSearch
  import opened RbTree
  import ListEngine
  import ArrayEngine
  import RbSnapshot
  import opened Options

  datatype Engine = LIST | LIST_MTF | ARRAY | RBTREE

  /** The same entries in some order. */
  ghost predicate Reordered(es: seq<Entry>, fs: seq<Entry>) {
    multiset(es) == multiset(fs)
  }

  lemma ReorderedEntries(es: seq<Entry>, fs: seq<Entry>)
    requires Reordered(es, fs)
    ensures |es| == |fs| && (forall e :: e in es <==> e in fs) && (Unique(es) ==> Unique(fs))
  {
    assert |es| == |multiset(es)| == |multiset(fs)| == |fs|;
    forall e
      ensures e in es <==> e in fs
    {
      assert e in es <==> e in multiset(es);
      assert e in fs <==> e in multiset(fs);
    }
    if Unique(es) {
      forall i, j | 0 <= i < j < |fs|
        ensures fs[i].key != fs[j].key
      {
        if fs[i].key == fs[j].key {
          assert fs[i] in es && fs[j] in es;
          assert fs[i] == fs[j];
          TwiceIn(fs, i, j);
          OnceIn(es, fs[i]);
        }
      }
    }
  }

  lemma TwiceIn(fs: seq<Entry>, i: nat, j: nat)
    requires i < j < |fs| && fs[i] == fs[j]
    ensures multiset(fs)[fs[i]] >= 2
  {
    assert fs == fs[..j] + [fs[j]] + fs[j + 1..];
    assert fs[i] in fs[..j];
  }

  lemma OnceIn(es: seq<Entry>, e: Entry)
    requires Unique(es) && e in es
    ensures multiset(es)[e] == 1
  {
    var i :| 0 <= i < |es| && es[i] == e;
    assert es == es[..i] + [es[i]] + es[i + 1..];
    assert e !in es[..i] && e !in es[i + 1..];
  }

  lemma NodesInside(s: seq<ListEngine.ListNode>, t: seq<ListEngine.ListNode>, repr: set<object>)
    requires (forall n :: n in t ==> n in s) && forall i :: 0 <= i < |s| ==> s[i] in repr
    ensures forall i :: 0 <= i < |t| ==> t[i] in repr
  {
    forall i | 0 <= i < |t|
      ensures t[i] in repr
    {
      assert t[i] in t;
      var j :| 0 <= j < |s| && s[j] == t[i];
    }
  }

  lemma FrontReordered(es: seq<Entry>, pos: nat)
    requires pos < |es|
    ensures Reordered(es, [es[pos]] + Removed(es, pos)) && |[es[pos]] + Removed(es, pos)| == |es|
  {
    assert es == es[..pos] + [es[pos]] + es[pos + 1..];
  }

  class Bucket {
    const eng: Engine
    const cmp: (Key, Key) -> int
    const list: ListEngine.ListBucket
    const arr: ArrayEngine.ArrayBucket
    const tree: RbRoot
    var size: nat              // bucket_size, of lists and trees
    ghost var entries: seq<Entry>
    ghost var dense: bool      // no hole among the slots that an iterator copies
    ghost var repr: set<object>

    /** `entries` are the entries of the bucket, in the engine's own order. */
    ghost predicate Valid()
      reads this, repr
    {
      && this in repr && TotalOrder(cmp) && (eng != ARRAY ==> dense)
      && match eng
         case LIST => ValidList()
         case LIST_MTF => ValidList()
         case ARRAY => arr in repr && arr.slots in repr && arr.Valid() && entries == arr.Contents() && (dense <==> arr.Dense())
         case RBTREE => tree in repr && tree.nodes <= repr && tree.Valid(cmp) && entries == tree.Contents() && size == |entries|
    }

    ghost predicate ValidList()
      reads this, repr
    {
      && list in repr && (forall i :: 0 <= i < |list.spine| ==> list.spine[i] in repr)
      && list.Valid() && entries == list.Contents() && size == |entries|
    }

    /** The engine's part of `hi_create`, for one bucket. */
    constructor (eng: Engine, cmp: (Key, Key) -> int, arraySize: nat)
      requires TotalOrder(cmp) && (eng == ARRAY ==> arraySize > 0)
      ensures Valid() && fresh(repr) && entries == [] && dense && this.eng == eng && this.cmp == cmp
    {
      this.eng, this.cmp, this.size, this.entries, this.dense := eng, cmp, 0, [], true;
      var l := new ListEngine.ListBucket();
      var a := new ArrayEngine.ArrayBucket(if eng == ARRAY then arraySize else 1);
      var t := new RbRoot();
      this.list, this.arr, this.tree := l, a, t;
      new;
      repr := {this, list, arr, arr.slots, tree};
    }

    /** `hi_get` on one bucket. */
    method Get(key: Key) returns (st: Status, res: Option<Data>)
      requires Valid()
      modifies repr
      ensures Valid() && repr == old(repr) && dense == old(dense) && Reordered(old(entries), entries)
      ensures if HasKey(old(entries), key) then st == SUCCESS && res.Some? && Entry(key, res.value) in old(entries)
              else st == ERR_NOKEY && res == None
    {
      match eng
      case ARRAY => st, res := arr.Get(cmp, key);
      case RBTREE => st, res := tree.Get(cmp, key);
      case _ => st, res := GetList(key);
    }

    method GetList(key: Key) returns (st: Status, res: Option<Data>)
      requires Valid() && (eng == LIST || eng == LIST_MTF)
      modifies repr
      ensures Valid() && repr == old(repr) && dense == old(dense) && Reordered(old(entries), entries)
      ensures if HasKey(old(entries), key) then st == SUCCESS && res.Some? && Entry(key, res.value) in old(entries)
              else st == ERR_NOKEY && res == None
    {
      ghost var es, s := entries, list.spine;
      ghost var pos;
      st, res, pos := list.Get(cmp, key, eng == LIST_MTF);
      entries := list.Contents();
      NodesInside(s, list.spine, repr);
      if HasKey(es, key) {
        FrontReordered(es, pos);
        assert es[pos] in es;
      }
    }

    /** `hi_lookup` on one bucket: only the list engines look. */
    method Lookup(key: Key) returns (st: Status)
      requires Valid()
      ensures st == SUCCESS <==> (eng == LIST || eng == LIST_MTF) && HasKey(entries, key)
    {
      match eng
      case ARRAY => st := FAILURE;
      case RBTREE => st := FAILURE;
      case _ => st := list.Lookup(cmp, key);
    }

    /** The switch of `hi_insert`, after `hi_lookup` has not found the key. */
    method Insert(key: Key, data: Data) returns (st: Status, ghost pos: nat)
      requires Valid() && (eng == LIST || eng == LIST_MTF ==> !HasKey(entries, key))
      modifies repr
      ensures Valid() && fresh(repr - old(repr)) && (old(dense) ==> dense)
      ensures HasKey(old(entries), key) ==> st == ERR_DUPKEY && entries == old(entries)
      ensures !HasKey(old(entries), key) ==>
        st == SUCCESS && pos <= |old(entries)| && entries == Added(old(entries), pos, Entry(key, data))
    {
      match eng
      case ARRAY =>
        st, pos := arr.Insert(cmp, key, data);
        repr, entries, dense := repr + {arr.slots}, arr.Contents(), arr.Dense();
      case RBTREE => st, pos := InsertTree(key, data);
      case _ =>
        list.Insert(key, data);
        size := size + 1;
        repr, entries := repr + {list.spine[0]}, list.Contents();
        assert forall i :: 1 <= i < |list.spine| ==> list.spine[i] == list.spine[1..][i - 1];
        st, pos := SUCCESS, 0;
    }

    method InsertTree(key: Key, data: Data) returns (st: Status, ghost pos: nat)
      requires Valid() && eng == RBTREE
      modifies repr
      ensures Valid() && fresh(repr - old(repr))
      ensures HasKey(old(entries), key) ==> st == ERR_DUPKEY && entries == old(entries)
      ensures !HasKey(old(entries), key) ==>
        st == SUCCESS && pos <= |old(entries)| && entries == Added(old(entries), pos, Entry(key, data))
    {
      st, pos := tree.Insert(cmp, key, data);
      if st == SUCCESS {
        size := size + 1;
      }
      repr, entries := repr + tree.nodes, tree.Contents();
    }

    /** `hi_remove` on one bucket. */
    method Remove(key: Key) returns (st: Status, res: Option<Data>, ghost pos: nat)
      requires Valid()
      modifies repr
      ensures Valid() && repr == old(repr)
      ensures !HasKey(old(entries), key) ==> st == ERR_NOKEY && res == None && entries == old(entries) && dense == old(dense)
      ensures HasKey(old(entries), key) ==>
        && st == SUCCESS && res.Some? && pos < |old(entries)| && old(entries)[pos] == Entry(key, res.value)
        && entries == Removed(old(entries), pos)
    {
      match eng
      case ARRAY =>
        st, res, pos := arr.Remove(cmp, key);
        entries, dense := arr.Contents(), arr.Dense();
      case RBTREE => st, res, pos := RemoveTree(key);
      case _ => st, res, pos := RemoveList(key);
    }

    method RemoveTree(key: Key) returns (st: Status, res: Option<Data>, ghost pos: nat)
      requires Valid() && eng == RBTREE
      modifies repr
      ensures Valid() && repr == old(repr)
      ensures !HasKey(old(entries), key) ==> st == ERR_NOKEY && res == None && entries == old(entries)
      ensures HasKey(old(entries), key) ==>
        && st == SUCCESS && res.Some? && pos < |old(entries)| && old(entries)[pos] == Entry(key, res.value)
        && entries == Removed(old(entries), pos)
    {
      st, res, pos := tree.Remove(cmp, key);
      entries := tree.Contents();
      if st == SUCCESS {
        size := size - 1;
      }
    }

    method RemoveList(key: Key) returns (st: Status, res: Option<Data>, ghost pos: nat)
      requires Valid() && (eng == LIST || eng == LIST_MTF)
      modifies repr
      ensures Valid() && repr == old(repr)
      ensures !HasKey(old(entries), key) ==> st == ERR_NOKEY && res == None && entries == old(entries)
      ensures HasKey(old(entries), key) ==>
        && st == SUCCESS && res.Some? && pos < |old(entries)| && old(entries)[pos] == Entry(key, res.value)
        && entries == Removed(old(entries), pos)
    {
      ghost var s := list.spine;
      st, res, pos := list.Remove(cmp, key);
      entries := list.Contents();
      NodesInside(s, list.spine, repr);
      if st == SUCCESS {
        size := size - 1;
      }
    }

    /** The snapshot of a bucket. Its entries are all there exactly if an array has no holes; with
        holes the end of the snapshot is not written. */
    method ToArray() returns (st: Status, a: array<Option<Entry>>, ghost es: seq<Entry>)
      requires Valid()
      ensures st == (if |entries| == 0 then ERR_NODATA else SUCCESS) && fresh(a) && a.Length == |entries|
      ensures dense ==> a[..] == Somes(es) && Reordered(entries, es)
      ensures !dense ==> |entries| > 0 && a[|entries| - 1] == None
    {
      if eng == RBTREE {
        st, a, es := TreeToArray();
      } else if eng == ARRAY {
        a := arr.ToArray();
        ArrayEngine.CopyIff(arr.slots[..], |entries|);
        es := entries;
        st := if arr.slotSize == 0 then ERR_NODATA else SUCCESS;
      } else {
        a := list.ToArray(size);
        es := entries;
        st := if size == 0 then ERR_NODATA else SUCCESS;
      }
    }

    method TreeToArray() returns (st: Status, a: array<Option<Entry>>, ghost es: seq<Entry>)
      requires Valid() && eng == RBTREE
      ensures st == (if |entries| == 0 then ERR_NODATA else SUCCESS)
      ensures fresh(a) && a[..] == Somes(es) && Reordered(entries, es)
    {
      RbSnapshot.EmptyTree(tree, cmp);
      if tree.root == null {
        a := new Option<Entry>[0];
        es := [];
        return ERR_NODATA, a, es;
      }
      st := SUCCESS;
      a := RbSnapshot.ToArray(tree, cmp, size);
      es := RbSnapshot.Preorder(tree.tree);
    }
  }
}
