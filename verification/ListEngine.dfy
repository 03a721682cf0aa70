/** The list engines: a bucket is a linked list, searched from the front; LIST_MTF moves an entry
    that was asked for to the front. `hi_list.c` for COLL_ENG_LIST and COLL_ENG_LIST_MTF. */
module ListEngine {
  import opened Entries
  import opened Chains
  import opened Options

  class ListNode {
    const key: Key
    const data: Data
    var next: ListNode?

    constructor (key: Key, data: Data, next: ListNode?)
      ensures this.key == key && this.data == data && this.next == next
    {
      this.key, this.data, this.next := key, data, next;
    }
  }

  /** The list that starts at `head` is `s`. */
  ghost predicate Chain(head: ListNode?, s: seq<ListNode>)
    reads s`next
  {
    && head == First(s, null)
    && forall i {:trigger After(s, i, null)} :: 0 <= i < |s| ==> s[i].next == After(s, i, null)
  }

  ghost function EntryOf(n: ListNode): Entry {
    Entry(n.key, n.data)
  }

  ghost function EntriesOf(s: seq<ListNode>): (es: seq<Entry>)
    ensures |es| == |s| && forall i :: 0 <= i < |s| ==> es[i] == EntryOf(s[i])
  {
    seq(|s|, i requires 0 <= i < |s| => EntryOf(s[i]))
  }

  ghost function Without(s: seq<ListNode>, k: nat): seq<ListNode>
    requires k < |s|
  {
    s[..k] + s[k + 1..]
  }

  lemma WithoutEntries(s: seq<ListNode>, k: nat)
    requires k < |s|
    ensures EntriesOf(Without(s, k)) == Removed(EntriesOf(s), k)
    ensures Distinct(s) ==> Distinct(Without(s, k)) && s[k] !in Without(s, k)
  {}

  lemma MovedEntries(s: seq<ListNode>, k: nat)
    requires k < |s|
    ensures EntriesOf([s[k]] + Without(s, k)) == [EntryOf(s[k])] + Removed(EntriesOf(s), k)
  {
    WithoutEntries(s, k);
  }

  lemma MovedNodes(s: seq<ListNode>, k: nat)
    requires k < |s|
    ensures forall n :: n in [s[k]] + Without(s, k) <==> n in s
  {
    var t := Without(s, k);
    forall n
      ensures n in [s[k]] + t <==> n in s
    {
      if n in s {
        var i :| 0 <= i < |s| && s[i] == n;
        assert i != k ==> n == t[if i < k then i else i - 1];
      }
    }
  }

  lemma MovedUnique(es: seq<Entry>, k: nat)
    requires Unique(es) && k < |es|
    ensures Unique([es[k]] + Removed(es, k))
  {}

  /** Takes the node at position `k` out; `p` is the node before it, or the node itself. */
  method Unlink(head: ListNode?, p: ListNode, b: ListNode, ghost s: seq<ListNode>, ghost k: nat) returns (head': ListNode?)
    requires k < |s| && b == s[k] && p == (if k > 0 then s[k - 1] else s[k]) && Distinct(s) && Chain(head, s)
    modifies (if p == b then {} else {p})`next
    ensures Chain(head', Without(s, k))
  {
    ghost var t := Without(s, k);
    assert b.next == After(s, k, null);
    head' := head;
    if p == b {
      head' := p.next;
    } else {
      p.next := b.next;
    }
    forall i | 0 <= i < |t|
      ensures t[i].next == After(t, i, null)
    {
      if i < k {
        assert t[i] == s[i] && old(s[i].next) == After(s, i, null);
      } else {
        assert t[i] == s[i + 1] && old(s[i + 1].next) == After(s, i + 1, null);
      }
    }
  }

  /** Puts a node that is on no list in front of one. */
  method PushFront(b: ListNode, head: ListNode?, ghost s: seq<ListNode>)
    requires b !in s && Chain(head, s)
    modifies b`next
    ensures Chain(b, [b] + s)
  {
    b.next := head;
    ghost var t := [b] + s;
    assert forall i :: 0 <= i < |s| ==> s[i] in s;
    forall i | 0 <= i < |t|
      ensures t[i].next == After(t, i, null)
    {
      if i > 0 {
        assert s[i - 1].next == After(s, i - 1, null);
      }
    }
    assert Chain(b, t);
  }

  class ListBucket {
    var head: ListNode?
    ghost var spine: seq<ListNode>

    ghost predicate Valid()
      reads this, spine`next
    {
      Chain(head, spine) && Distinct(spine) && Unique(Contents())
    }

    ghost function Contents(): seq<Entry>
      reads this`spine
    {
      EntriesOf(spine)
    }

    constructor ()
      ensures Valid() && Contents() == [] && spine == []
    {
      head, spine := null, [];
    }

    /** The search loop: the node with the key and the node before it. */
    method Find(cmp: (Key, Key) -> int, key: Key) returns (p: ListNode?, b: ListNode?, ghost k: nat)
      requires Valid() && forall a, b :: cmp(a, b) == 0 <==> a == b
      ensures b == null ==> !HasKey(Contents(), key)
      ensures b != null ==> k < |spine| && b == spine[k] && p == (if k > 0 then spine[k - 1] else b) && b.key == key
    {
      p, b, k := head, head, 0;
      while b != null
        invariant 0 <= k <= |spine| && b == (if k < |spine| then spine[k] else null)
        invariant p == (if k > 0 then spine[k - 1] else head)
        invariant forall i :: 0 <= i < k ==> spine[i].key != key
        decreases |spine| - k
      {
        if cmp(key, b.key) == 0 {
          return;
        }
        assert b.next == After(spine, k, null);
        p := b;
        b := b.next;
        k := k + 1;
      }
    }

    /** `lhi_lookup_list` */
    method Lookup(cmp: (Key, Key) -> int, key: Key) returns (st: Status)
      requires Valid() && forall a, b :: cmp(a, b) == 0 <==> a == b
      ensures st == if HasKey(Contents(), key) then SUCCESS else ERR_NOKEY
    {
      var p, b;
      ghost var k;
      p, b, k := Find(cmp, key);
      if b != null {
        assert Contents()[k].key == key;
        return SUCCESS;
      }
      return ERR_NOKEY;
    }

    /** `lhi_get_list`; with `mtf`, the entry moves to the front. */
    method Get(cmp: (Key, Key) -> int, key: Key, mtf: bool) returns (st: Status, res: Option<Data>, ghost pos: nat)
      requires Valid() && forall a, b :: cmp(a, b) == 0 <==> a == b
      modifies this, spine`next
      ensures Valid() && (forall n :: n in spine <==> n in old(spine))
      ensures old(!HasKey(Contents(), key)) ==> st == ERR_NOKEY && res == None && spine == old(spine)
      ensures old(HasKey(Contents(), key)) ==>
        && st == SUCCESS && res.Some? && pos < |old(Contents())| && old(Contents())[pos] == Entry(key, res.value)
        && Contents() == if mtf then [old(Contents())[pos]] + Removed(old(Contents()), pos) else old(Contents())
    {
      var p, b;
      p, b, pos := Find(cmp, key);
      if b == null {
        return ERR_NOKEY, None, pos;
      }
      assert Contents()[pos].key == key;
      st, res := SUCCESS, Some(b.data);
      if mtf {
        MoveToFront(p, b, pos);
      }
    }

    method MoveToFront(p: ListNode, b: ListNode, ghost k: nat)
      requires Valid() && k < |spine| && b == spine[k] && p == (if k > 0 then spine[k - 1] else b)
      modifies this, spine`next
      ensures Valid() && (forall n :: n in spine <==> n in old(spine))
      ensures Contents() == [old(Contents())[k]] + Removed(old(Contents()), k)
    {
      ghost var s := spine;
      ghost var t := Without(s, k);
      WithoutEntries(s, k);
      MovedEntries(s, k);
      MovedUnique(EntriesOf(s), k);
      if p != b {
        var h := Unlink(head, p, b, s, k);
        assert h == head;
        PushFront(b, head, t);
        head := b;
        spine := [b] + t;
      } else {
        assert s == [b] + t;
      }
      MovedNodes(s, k);
    }

    /** `lhi_insert_list`, after the lookup has failed. */
    method Insert(key: Key, data: Data)
      requires Valid() && !HasKey(Contents(), key)
      modifies this
      ensures Valid() && Contents() == Added(old(Contents()), 0, Entry(key, data))
      ensures |spine| > 0 && fresh(spine[0]) && spine[1..] == old(spine)
    {
      var obj := new ListNode(key, data, null);
      ghost var s := spine;
      PushFront(obj, head, s);
      head := obj;
      spine := [obj] + s;
      assert Contents() == [Entry(key, data)] + EntriesOf(s);
    }

    /** `lhi_remove_list` */
    method Remove(cmp: (Key, Key) -> int, key: Key) returns (st: Status, res: Option<Data>, ghost pos: nat)
      requires Valid() && forall a, b :: cmp(a, b) == 0 <==> a == b
      modifies this, spine`next
      ensures Valid() && (forall n :: n in spine ==> n in old(spine))
      ensures old(!HasKey(Contents(), key)) ==> st == ERR_NOKEY && res == None && spine == old(spine)
      ensures old(HasKey(Contents(), key)) ==>
        && st == SUCCESS && res.Some? && pos < |old(Contents())| && old(Contents())[pos] == Entry(key, res.value)
        && Contents() == Removed(old(Contents()), pos)
    {
      var p, b;
      p, b, pos := Find(cmp, key);
      if b == null {
        return ERR_NOKEY, None, pos;
      }
      assert Contents()[pos].key == key;
      st, res := SUCCESS, Some(b.data);
      ghost var s := spine;
      WithoutEntries(s, pos);
      RemovedMap(EntriesOf(s), pos);
      head := Unlink(head, p, b, s, pos);
      spine := Without(s, pos);
    }

    /** `lhi_list_bucket_to_array`: the entries from the front, `max` of them. */
    method ToArray(max: nat) returns (a: array<Option<Entry>>)
      requires Valid() && max == |spine|
      ensures fresh(a) && a[..] == Somes(Contents())
    {
      a := new Option<Entry>[max](_ => None);
      var b, i := head, 0;
      while b != null
        invariant 0 <= i <= max && b == (if i < max then spine[i] else null) && Valid()
        invariant forall j :: 0 <= j < i ==> a[j] == Some(Contents()[j])
        decreases max - i
      {
        assert b.next == After(spine, i, null);
        a[i] := Some(Entry(b.key, b.data));
        i := i + 1;
        b := b.next;
      }
    }
  }
}
