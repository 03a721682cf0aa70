/** The table: buckets, insert with automatic growth, get, remove, iteration and rehash.
    `hi_operations.c`, `hi_iterator.c` and `lib_init.c`. */
module HashTable {
  import opened Entries
  import opened RbSearch
  import opened HashBucket
  import ArrayEngine
  import opened TableModel
  import opened Guards
  import opened Options

  class Table {
    const hash: Key -> nat
    const cmp: (Key, Key) -> int
    const eng: Engine
    const arraySize: nat
    var tableSize: nat
    var noObjects: nat
    var rehashAuto: bool
    var rehashThreshold: real
    var buckets: seq<Bucket>
    ghost var contents: seq<seq<Entry>>  // the entries of each bucket
    ghost var dense: bool                // no bucket has holes that an iterator stumbles over
    ghost var owner: map<object, nat>    // every object of a bucket, and which bucket it belongs to

    ghost predicate Owned(i: nat)
      requires i < |buckets|
      reads this`buckets, this`owner, buckets[i]
    {
      forall o :: o in buckets[i].repr ==> o in owner && owner[o] == i
    }

    ghost predicate Sound(i: nat)
      requires i < |buckets|
      reads this`buckets, buckets[i], buckets[i].repr
    {
      buckets[i].Valid() && buckets[i].eng == eng && buckets[i].cmp == cmp
    }

    /** The buckets are valid and share nothing. */
    ghost predicate Apart()
      reads this`tableSize, this`buckets, this`owner, owner.Keys
    {
      && |buckets| == tableSize && (eng == ARRAY ==> arraySize > 0) && TotalOrder(cmp) && this !in owner
      && (forall i :: 0 <= i < |buckets| ==> buckets[i] in owner)
      && (forall i {:trigger Owned(i)} :: 0 <= i < |buckets| ==> Owned(i))
      && (forall i {:trigger Sound(i)} :: 0 <= i < |buckets| ==> Owned(i) && Sound(i))
    }

    ghost predicate Inner()
      reads this, owner.Keys
    {
      && Apart() && contents == EntriesIn(buckets) && Placed(hash, contents) && noObjects == |All(contents)|
      && (dense <==> AllDense(buckets))
    }

    /** The invariant of the table. Proofs that only pass it on need not look into it. */
    ghost predicate Valid()
      reads this, owner.Keys
    {
      tableSize > 0 && |contents| == tableSize && (eng != ARRAY ==> dense) && forall z {:trigger Open(z)} :: Open(z) ==> Inner()
    }

    lemma Opened()
      requires Valid()
      ensures Inner()
    {
      assert Open(0);
    }

    /** The map that the table stands for. */
    ghost function Map(): map<Key, Data>
      reads this`contents
    {
      Model(contents)
    }

    /** `hi_create` for settings that pass its checks. */
    constructor (hash: Key -> nat, cmp: (Key, Key) -> int, eng: Engine, size: nat, arraySize: nat, auto: bool, threshold: real)
      requires TotalOrder(cmp) && size > 0 && (eng == ARRAY ==> arraySize > 0)
      ensures Valid() && Map() == map[] && fresh(owner.Keys)
      ensures this.hash == hash && this.cmp == cmp && this.eng == eng && this.arraySize == arraySize
      ensures tableSize == size && noObjects == 0 && rehashAuto == auto && rehashThreshold == threshold && dense
    {
      this.hash, this.cmp, this.eng, this.arraySize := hash, cmp, eng, arraySize;
      tableSize, noObjects, rehashAuto, rehashThreshold, buckets, contents, owner := 0, 0, auto, threshold, [], [], map[];
      new;
      Build(size);
    }

    method Build(size: nat)
      requires Apart() && tableSize == 0 < size
      modifies this
      ensures Valid() && Map() == map[] && fresh(owner.Keys - old(owner.Keys)) && tableSize == size && noObjects == 0 && dense
      ensures unchanged(this`rehashAuto, this`rehashThreshold)
    {
      AddBuckets(size);
      ghost var cs := EntriesIn(buckets);
      EmptyTable(hash, cs);
      Store(cs, 0);
    }

    method AddBuckets(size: nat)
      requires Apart() && tableSize == 0
      modifies this`buckets, this`tableSize, this`owner
      ensures Apart() && tableSize == size && fresh(owner.Keys - old(owner.Keys))
      ensures forall i :: 0 <= i < |buckets| ==> buckets[i].entries == [] && buckets[i].dense
    {
      while tableSize < size
        invariant tableSize <= size && Apart() && fresh(owner.Keys - old(owner.Keys))
        invariant forall i :: 0 <= i < |buckets| ==> buckets[i].entries == [] && buckets[i].dense
      {
        AddBucket();
      }
    }

    method GetIn(b: nat, key: Key) returns (st: Status, res: Option<Data>)
      requires Apart() && b < tableSize
      modifies buckets[b].repr
      ensures unchanged(this) && Apart() && Reordered(old(buckets[b].entries), buckets[b].entries)
      ensures forall i :: 0 <= i < |buckets| && i != b ==> buckets[i].entries == old(buckets[i].entries)
      ensures forall i :: 0 <= i < |buckets| ==> buckets[i].dense == old(buckets[i].dense)
      ensures if HasKey(old(buckets[b].entries), key) then st == SUCCESS && res.Some? && Entry(key, res.value) in old(buckets[b].entries)
              else st == ERR_NOKEY && res == None
    {
      assert Owned(b) && Sound(b);
      st, res := buckets[b].Get(key);
      forall i | 0 <= i < |buckets| && i != b
        ensures Sound(i) && Owned(i) && buckets[i].entries == old(buckets[i].entries) && buckets[i].repr == old(buckets[i].repr)
        ensures buckets[i].dense == old(buckets[i].dense)
      {
        assert old(Owned(i) && Sound(i)) && old(Owned(b));
      }
    }

    /** `hi_get` */
    method Get(key: Key) returns (st: Status, res: Option<Data>)
      requires Valid()
      modifies this`contents, owner.Keys
      ensures Valid() && unchanged(this`owner, this`tableSize, this`noObjects, this`rehashAuto, this`rehashThreshold, this`dense) && Map() == old(Map())
      ensures if key in Map() then st == SUCCESS && res == Some(Map()[key]) else st == ERR_NOKEY && res == None
    {
      Opened();
      var b := hash(key) % tableSize;
      TableModel.Lookup(hash, contents, key);
      assert Owned(b) && Sound(b);
      ghost var es;
      st, res, es := GetFrom(b, key);
      ReorderedEntries(contents[b], es);
      ReorderModel(hash, contents, b, es);
      Renew(contents[b := es]);
    }

    method GetFrom(b: nat, key: Key) returns (st: Status, res: Option<Data>, ghost es: seq<Entry>)
      requires Apart() && b < tableSize && contents == EntriesIn(buckets)
      modifies buckets[b].repr
      ensures Apart() && unchanged(this) && EntriesIn(buckets) == contents[b := es] && Reordered(contents[b], es)
      ensures AllDense(buckets) == old(AllDense(buckets))
      ensures if HasKey(contents[b], key) then st == SUCCESS && res.Some? && Entry(key, res.value) in contents[b]
              else st == ERR_NOKEY && res == None
    {
      assert Owned(b) && Sound(b);
      st, res := GetIn(b, key);
      es := buckets[b].entries;
    }

    ghost method Renew(ds: seq<seq<Entry>>)
      requires Apart() && EntriesIn(buckets) == ds && Placed(hash, ds) && noObjects == |All(ds)| && tableSize > 0
      requires (dense <==> AllDense(buckets)) && (eng != ARRAY ==> dense)
      modifies this`contents
      ensures Valid() && contents == ds
    {
      contents := ds;
    }

    /** Only an array can have holes. */
    lemma DenseUnlessArray()
      requires Apart()
      ensures eng != ARRAY ==> AllDense(buckets)
    {
      forall i | 0 <= i < |buckets| && eng != ARRAY
        ensures buckets[i].dense
      {
        assert Owned(i) && Sound(i);
      }
    }

    /** What the buckets hold; closed. */
    ghost predicate Books(ds: seq<seq<Entry>>, d: bool)
      reads this`tableSize, this`buckets, this`owner, owner.Keys
    {
      forall z {:trigger Open(z)} :: Open(z) ==> BooksHere(ds, d)
    }

    ghost predicate BooksHere(ds: seq<seq<Entry>>, d: bool)
      reads this`tableSize, this`buckets, this`owner, owner.Keys
    {
      Apart() && EntriesIn(buckets) == ds && AllDense(buckets) == d
    }

    /** The counters, and the ghost view, after an operation on a bucket. */
    method Store(ghost ds: seq<seq<Entry>>, n: nat)
      requires Apart() && EntriesIn(buckets) == ds && Placed(hash, ds) && n == |All(ds)|
      modifies this`noObjects, this`contents, this`dense
      ensures Valid() && contents == ds && noObjects == n && dense == old(AllDense(buckets))
      ensures unchanged(this`tableSize, this`owner, this`rehashAuto, this`rehashThreshold)
    {
      SetBooks(ds, n, AllDense(buckets));
    }

    method SetBooks(ghost ds: seq<seq<Entry>>, n: nat, ghost d: bool)
      requires Books(ds, d) && Placed(hash, ds) && n == |All(ds)|
      modifies this`noObjects, this`contents, this`dense
      ensures Valid() && contents == ds && noObjects == n && dense == d
      ensures unchanged(this`tableSize, this`owner, this`rehashAuto, this`rehashThreshold)
    {
      noObjects, contents, dense := n, ds, d;
      Stored(ds, d);
    }

    lemma Stored(ds: seq<seq<Entry>>, d: bool)
      requires Books(ds, d) && contents == ds && Placed(hash, ds) && noObjects == |All(ds)| && dense == d
      ensures Valid()
    {
      assert Open(0);
      DenseUnlessArray();
    }

    method AddBucket()
      requires Apart()
      modifies this`buckets, this`tableSize, this`owner
      ensures Apart() && |buckets| == |old(buckets)| + 1 && buckets[..|old(buckets)|] == old(buckets)
      ensures buckets[|old(buckets)|].entries == [] && buckets[|old(buckets)|].dense && fresh(owner.Keys - old(owner.Keys))
    {
      ghost var n := |buckets|;
      var bucket := new Bucket(eng, cmp, arraySize);
      buckets, tableSize := buckets + [bucket], tableSize + 1;
      owner := Claim(owner, bucket.repr, n);
      forall i | 0 <= i < |buckets|
        ensures buckets[i] in owner && Owned(i) && Sound(i)
      {
        if i < n {
          assert buckets[i] == old(buckets[i]) && old(Owned(i)) && old(Sound(i));
        }
      }
    }

    method InsertRaw(b: nat, key: Key, data: Data) returns (st: Status, ghost pos: nat)
      requires Apart() && b < tableSize && (eng == LIST || eng == LIST_MTF ==> !HasKey(buckets[b].entries, key))
      modifies buckets[b].repr
      ensures unchanged(this)
      ensures forall i {:trigger Sound(i)} :: 0 <= i < |buckets| ==> Sound(i)
      ensures forall i :: 0 <= i < |buckets| && i != b ==> buckets[i].entries == old(buckets[i].entries) && buckets[i].repr == old(buckets[i].repr)
      ensures fresh(buckets[b].repr - old(buckets[b].repr))
      ensures forall i :: 0 <= i < |buckets| && old(buckets[i].dense) ==> buckets[i].dense
      ensures HasKey(old(buckets[b].entries), key) ==> st == ERR_DUPKEY && buckets[b].entries == old(buckets[b].entries)
      ensures !HasKey(old(buckets[b].entries), key) ==>
        && st == SUCCESS && pos <= |old(buckets[b].entries)|
        && buckets[b].entries == Added(old(buckets[b].entries), pos, Entry(key, data))
    {
      assert Owned(b) && Sound(b);
      st, pos := buckets[b].Insert(key, data);
      forall i | 0 <= i < |buckets| && i != b
        ensures Sound(i) && Owned(i) && buckets[i].entries == old(buckets[i].entries) && buckets[i].repr == old(buckets[i].repr)
        ensures buckets[i].dense == old(buckets[i].dense)
      {
        assert old(Owned(i) && Sound(i)) && old(Owned(b));
      }
    }

    method InsertIn(b: nat, key: Key, data: Data) returns (st: Status, ghost pos: nat)
      requires Apart() && b < tableSize && (eng == LIST || eng == LIST_MTF ==> !HasKey(buckets[b].entries, key))
      modifies this`owner, buckets[b].repr
      ensures unchanged(this`buckets, this`tableSize, this`contents, this`noObjects) && Apart() && fresh(owner.Keys - old(owner.Keys))
      ensures forall i :: 0 <= i < |buckets| && old(buckets[i].dense) ==> buckets[i].dense
      ensures forall i :: 0 <= i < |buckets| && i != b ==> buckets[i].entries == old(buckets[i].entries)
      ensures HasKey(old(buckets[b].entries), key) ==> st == ERR_DUPKEY && buckets[b].entries == old(buckets[b].entries)
      ensures !HasKey(old(buckets[b].entries), key) ==>
        && st == SUCCESS && pos <= |old(buckets[b].entries)|
        && buckets[b].entries == Added(old(buckets[b].entries), pos, Entry(key, data))
    {
      assert Owned(b) && Sound(b);
      st, pos := InsertRaw(b, key, data);
      owner := Claim(owner, buckets[b].repr, b);
      forall i | 0 <= i < |buckets|
        ensures Owned(i) && Sound(i)
      {
        assert old(Owned(i)) && old(Owned(b));
      }
    }

    method RemoveIn(b: nat, key: Key) returns (st: Status, res: Option<Data>, ghost pos: nat)
      requires Apart() && b < tableSize
      modifies buckets[b].repr
      ensures unchanged(this) && Apart()
      ensures forall i :: 0 <= i < |buckets| && i != b ==> buckets[i].entries == old(buckets[i].entries)
      ensures !HasKey(old(buckets[b].entries), key) ==>
        st == ERR_NOKEY && res == None && buckets[b].entries == old(buckets[b].entries)
      ensures HasKey(old(buckets[b].entries), key) ==>
        && st == SUCCESS && res.Some? && pos < |old(buckets[b].entries)|
        && old(buckets[b].entries)[pos] == Entry(key, res.value) && buckets[b].entries == Removed(old(buckets[b].entries), pos)
    {
      assert Owned(b) && Sound(b);
      st, res, pos := buckets[b].Remove(key);
      forall i | 0 <= i < |buckets| && i != b
        ensures Sound(i) && Owned(i) && buckets[i].entries == old(buckets[i].entries) && buckets[i].repr == old(buckets[i].repr)
        ensures buckets[i].dense == old(buckets[i].dense)
      {
        assert old(Owned(i) && Sound(i)) && old(Owned(b));
      }
    }

    method RemoveFrom(b: nat, key: Key) returns (st: Status, res: Option<Data>, ghost ds: seq<seq<Entry>>, ghost pos: nat)
      requires Apart() && b < tableSize && contents == EntriesIn(buckets)
      modifies buckets[b].repr
      ensures Apart() && unchanged(this) && ds == EntriesIn(buckets) && Taken(contents, ds, b, key, st, res, pos)
    {
      assert Owned(b) && Sound(b);
      st, res, pos := RemoveIn(b, key);
      ds := EntriesIn(buckets);
      assert ds == contents[b := buckets[b].entries];
      assert contents[b := contents[b]] == contents;
    }

    /** `hi_remove` */
    method Remove(key: Key) returns (st: Status, res: Option<Data>)
      requires Valid()
      modifies this`noObjects, this`contents, this`dense, owner.Keys
      ensures Valid() && unchanged(this`owner, this`tableSize, this`rehashAuto, this`rehashThreshold) && noObjects == |Map()|
      ensures noObjects <= old(noObjects)
      ensures key !in old(Map()) ==> st == ERR_NOKEY && res == None && Map() == old(Map())
      ensures key in old(Map()) ==> st == SUCCESS && res == Some(old(Map())[key]) && Map() == old(Map()) - {key}
      ensures SameBut(old(contents), contents, hash(key) % tableSize)
    {
      Opened();
      var b := hash(key) % tableSize;
      ghost var ds, pos;
      assert Owned(b) && Sound(b);
      st, res, ds, pos := RemoveFrom(b, key);
      RemoveOutcome(hash, contents, ds, key, st, res, pos);
      Store(ds, if st == SUCCESS then noObjects - 1 else noObjects);
    }

    // ----- insertion and growth -------------------------------------------------------------------

    method InsertFrom(b: nat, key: Key, data: Data) returns (st: Status, ghost ds: seq<seq<Entry>>, ghost pos: nat)
      requires Apart() && b < tableSize && contents == EntriesIn(buckets) && (eng == LIST || eng == LIST_MTF ==> !HasKey(contents[b], key))
      modifies this`owner, buckets[b].repr
      ensures unchanged(this`buckets, this`tableSize, this`contents, this`noObjects, this`rehashAuto, this`rehashThreshold)
      ensures Apart() && fresh(owner.Keys - old(owner.Keys))
      ensures ds == EntriesIn(buckets) && Given(contents, ds, b, Entry(key, data), st, pos)
      ensures old(AllDense(buckets)) ==> AllDense(buckets)
    {
      assert Owned(b) && Sound(b);
      st, pos := InsertIn(b, key, data);
      ds := EntriesIn(buckets);
      assert ds == contents[b := buckets[b].entries];
      assert contents[b := contents[b]] == contents;
    }

    /** The switch of `hi_insert`. */
    method InsertNow(key: Key, data: Data) returns (st: Status)
      requires Valid() && (eng == LIST || eng == LIST_MTF ==> key !in Map())
      modifies this`noObjects, this`contents, this`dense, this`owner, owner.Keys
      ensures Valid() && (old(dense) ==> dense) && tableSize == old(tableSize) && rehashAuto == old(rehashAuto) && rehashThreshold == old(rehashThreshold) && fresh(owner.Keys - old(owner.Keys))
      ensures noObjects == |Map()|
      ensures key in old(Map()) ==> st == ERR_DUPKEY && Map() == old(Map()) && noObjects == old(noObjects)
      ensures key !in old(Map()) ==> st == SUCCESS && Map() == old(Map())[key := data] && noObjects == old(noObjects) + 1
    {
      Opened();
      InBucket(hash, contents, key);
      st := InsertAt(hash(key) % tableSize, key, data);
    }

    method InsertAt(b: nat, key: Key, data: Data) returns (st: Status)
      requires Inner() && tableSize > 0 && b == hash(key) % tableSize && (eng == LIST || eng == LIST_MTF ==> !HasKey(contents[b], key))
      modifies this`noObjects, this`contents, this`dense, this`owner, owner.Keys
      ensures Valid() && (old(dense) ==> dense) && tableSize == old(tableSize) && rehashAuto == old(rehashAuto) && rehashThreshold == old(rehashThreshold) && fresh(owner.Keys - old(owner.Keys))
      ensures noObjects == |Map()|
      ensures key in old(Map()) ==> st == ERR_DUPKEY && Map() == old(Map()) && noObjects == old(noObjects)
      ensures key !in old(Map()) ==> st == SUCCESS && Map() == old(Map())[key := data] && noObjects == old(noObjects) + 1
    {
      ghost var cs := contents;
      ghost var ds, pos;
      assert Owned(b) && Sound(b);
      st, ds, pos := InsertFrom(b, key, data);
      StoreInserted(cs, ds, Entry(key, data), st, pos);
    }

    /** The counter after an insertion. */
    method StoreInserted(ghost cs: seq<seq<Entry>>, ghost ds: seq<seq<Entry>>, ghost e: Entry, st: Status, ghost pos: nat)
      requires Apart() && tableSize > 0 && EntriesIn(buckets) == ds && Placed(hash, cs) && noObjects == |All(cs)|
      requires Given(cs, ds, hash(e.key) % |cs|, e, st, pos)
      modifies this`noObjects, this`contents, this`dense
      ensures Valid() && noObjects == |Map()| && dense == old(AllDense(buckets))
      ensures e.key in Model(cs) ==> st == ERR_DUPKEY && Map() == Model(cs) && noObjects == old(noObjects)
      ensures e.key !in Model(cs) ==> st == SUCCESS && Map() == Model(cs)[e.key := e.data] && noObjects == old(noObjects) + 1
      ensures unchanged(this`tableSize, this`owner, this`rehashAuto, this`rehashThreshold)
    {
      InsertOutcome(hash, cs, ds, e, st, pos);
      Store(ds, if st == SUCCESS then noObjects + 1 else noObjects);
    }

    /** The two tables, and the iterator over this one, share nothing. */
    ghost predicate Separate(t: Table, it: Iter)
      reads this, t, it
    {
      && this !in t.owner && t !in owner && t.owner.Keys !! owner.Keys
      && it !in t.owner && it !in owner && it.a !in t.owner && it.a !in owner
    }

    method PutEntry(t: Table, it: Iter, e: Entry)
      requires Valid() && t.Valid() && !t.rehashAuto && t != this && Separate(t, it) && it.Ok(hash, tableSize) && e.key !in t.Map()
      modifies t, t.owner.Keys
      ensures Valid() && unchanged(this) && unchanged(it) && Separate(t, it) && it.Ok(hash, tableSize)
      ensures t.Valid() && !t.rehashAuto && t.tableSize == old(t.tableSize) && fresh(t.owner.Keys - old(t.owner.Keys))
      ensures t.Map() == old(t.Map())[e.key := e.data] && (old(t.dense) ==> t.dense)
      decreases 1
    {
      var st := t.Insert(e.key, e.data);
    }

    method NextEntry(t: Table, it: Iter) returns (st: Status, e: Option<Entry>)
      requires Valid() && dense && t.Valid() && Separate(t, it) && it.table == this && it.Ok(hash, tableSize)
      modifies it
      ensures Valid() && t.Valid() && Separate(t, it) && it.Ok(hash, tableSize)
      ensures var p := old(it.Pending(contents));
        if p == multiset{} then st == ERR_NODATA
        else st == SUCCESS && e.Some? && e.value in p && it.Pending(contents) == p - multiset{e.value}
    {
      st, e := it.GetNext();
    }

    /** `st` and `e` are what the iterator gave last, `p` what was pending before; what was pending
        no more is in table `t`. The loop's proof need not look into this. */
    ghost predicate Refilling(t: Table, it: Iter, m: map<Key, Data>, p: multiset<Entry>, st: Status, e: Option<Entry>)
      reads this, owner.Keys, t, t.owner.Keys, it, it.a
    {
      && (p == multiset{} <==> st != SUCCESS) && (st == SUCCESS ==> e.Some?)
      && forall z {:trigger Open(z)} :: Open(z) ==> RefillInv(t, it, m, p, e)
    }

    ghost predicate RefillInv(t: Table, it: Iter, m: map<Key, Data>, p: multiset<Entry>, e: Option<Entry>)
      reads this, owner.Keys, t, t.owner.Keys, it, it.a
    {
      && Valid() && dense && t.Valid() && t.dense && !t.rehashAuto && t != this && Separate(t, it)
      && it.table == this && it.Ok(hash, tableSize) && Unseen(m, p) && Moved(m, t.Map(), p)
      && (p != multiset{} ==> e.Some? && e.value in p && it.Pending(contents) == p - multiset{e.value})
    }

    method MoveEntry(t: Table, it: Iter, e: Entry, ghost m: map<Key, Data>, ghost p: multiset<Entry>)
      returns (st: Status, e': Option<Entry>, ghost p': multiset<Entry>)
      requires Refilling(t, it, m, p, SUCCESS, Some(e))
      modifies it, t, t.owner.Keys
      ensures Refilling(t, it, m, p', st, e') && |p'| < |p|
      ensures t.tableSize == old(t.tableSize) && fresh(t.owner.Keys - old(t.owner.Keys))
      decreases 2
    {
      assert Open(0);
      MoveOne(m, t.Map(), p, e);
      p' := p - multiset{e};
      PutEntry(t, it, e);
      st, e' := NextEntry(t, it);
      assert RefillInv(t, it, m, p', e');
    }

    /** The loop of `hi_rehash`: every entry that the iterator hands out goes into table `t`. */
    method Refill(t: Table, it: Iter, first: Option<Entry>, ghost m: map<Key, Data>, ghost pending: multiset<Entry>)
      requires Refilling(t, it, m, pending, SUCCESS, first)
      modifies it, t, t.owner.Keys
      ensures t.Valid() && t.dense && t.Map() == m
      ensures t.tableSize == old(t.tableSize) && fresh(t.owner.Keys - old(t.owner.Keys))
      decreases 3
    {
      var st, e := SUCCESS, first;
      ghost var p := pending;
      while st == SUCCESS
        invariant Refilling(t, it, m, p, st, e)
        invariant t.tableSize == old(t.tableSize) && fresh(t.owner.Keys - old(t.owner.Keys))
        decreases |p|
      {
        st, e, p := MoveEntry(t, it, e.value, m, p);
      }
      RefillDone(t, it, m, st, e);
    }

    lemma RefillDone(t: Table, it: Iter, m: map<Key, Data>, st: Status, e: Option<Entry>)
      requires Refilling(t, it, m, multiset{}, st, e)
      ensures t.Valid() && t.dense && t.Map() == m
    {
      assert Open(0);
      AllMoved(m, t.Map());
    }

    /** The start of `hi_rehash`: a new table and an iterator that has handed out one entry. */
    method StartRehash(size: nat) returns (st: Status, t: Table, it: Iter, e: Option<Entry>)
      requires Valid() && dense && size > 0
      ensures fresh(t) && fresh(t.owner.Keys) && fresh(it) && t.tableSize == size
      ensures t.hash == hash && t.cmp == cmp && t.eng == eng && t.arraySize == arraySize
      ensures Map() == map[] ==> st == ERR_NODATA
      ensures Map() != map[] ==> st == SUCCESS && Refilling(t, it, Map(), Later(contents, 0), st, e)
    {
      Opened();
      AllPending(hash, contents);
      t := new Table(hash, cmp, eng, size, arraySize, false, rehashThreshold);
      it := new Iter(this);
      st, e := FirstEntry(t, it);
    }

    method FirstEntry(t: Table, it: Iter) returns (st: Status, e: Option<Entry>)
      requires Valid() && dense && t.Valid() && t.dense && !t.rehashAuto && t != this && Separate(t, it) && it.table == this && t.Map() == map[]
      requires Unseen(Map(), Later(contents, 0)) && forall key :: key in Map() ==> Entry(key, Map()[key]) in Later(contents, 0)
      modifies it
      ensures if Later(contents, 0) == multiset{} then st == ERR_NODATA
              else st == SUCCESS && Refilling(t, it, Map(), Later(contents, 0), st, e)
    {
      e := None;
      st := Reset(t, it);
      if st == SUCCESS {
        st, e := NextEntry(t, it);
        assert RefillInv(t, it, Map(), Later(contents, 0), e);
      }
    }

    method Reset(t: Table, it: Iter) returns (st: Status)
      requires Valid() && dense && t.Valid() && Separate(t, it) && it.table == this
      modifies it
      ensures Valid() && t.Valid() && Separate(t, it) && it.Ok(hash, tableSize)
      ensures st == (if Later(contents, 0) == multiset{} then ERR_NODATA else SUCCESS) && it.Pending(contents) == Later(contents, 0)
    {
      ghost var K := t.owner.Keys;
      t.Opened();
      st := it.NextBucket(0);
      assert forall o :: o in K ==> unchanged(o);
      assert t.Inner();
    }

    /** The end of `hi_rehash`: this handle takes over the new table. */
    method TakeOver(t: Table)
      requires t.Valid() && this !in t.owner && t != this && t.hash == hash && t.cmp == cmp && t.eng == eng && t.arraySize == arraySize
      modifies this
      ensures Valid() && tableSize == t.tableSize && contents == t.contents && noObjects == t.noObjects && owner == t.owner
      ensures rehashAuto == old(rehashAuto) && rehashThreshold == old(rehashThreshold) && dense == t.dense
    {
      tableSize, noObjects, buckets, contents, owner, dense := t.tableSize, t.noObjects, t.buckets, t.contents, t.owner, t.dense;
      TakenOver(t);
    }

    lemma TakenOver(t: Table)
      requires t.Valid() && this !in t.owner && t != this && t.hash == hash && t.cmp == cmp && t.eng == eng && t.arraySize == arraySize
      requires tableSize == t.tableSize && noObjects == t.noObjects && buckets == t.buckets && contents == t.contents
      requires owner == t.owner && dense == t.dense
      ensures Valid()
    {
      t.Opened();
      forall i | 0 <= i < |buckets|
        ensures Owned(i) && Sound(i)
      {
        assert t.Owned(i) && t.Sound(i);
      }
    }

    /** `hi_rehash`: a table with entries keeps its map; an empty one is left as it is. */
    method Rehash(size: nat) returns (st: Status)
      requires Valid() && dense && size > 0
      modifies this
      ensures Valid() && dense && Map() == old(Map()) && noObjects == old(noObjects)
      ensures rehashAuto == old(rehashAuto) && rehashThreshold == old(rehashThreshold)
      ensures old(Map()) == map[] ==> st == ERR_NODATA && unchanged(this)
      ensures old(Map()) != map[] ==> st == SUCCESS && tableSize == size && fresh(owner.Keys)
      decreases 4
    {
      var t, it, e;
      st, t, it, e := StartRehash(size);
      if st != SUCCESS {
        return;
      }
      ghost var m := Map();
      Counted();
      Refill(t, it, e, m, Later(contents, 0));
      t.Counted();
      TakeOver(t);
    }

    /** The number of objects is the size of the map. */
    lemma Counted()
      requires Valid()
      ensures noObjects == |Map()|
    {
      Opened();
      ModelSize(hash, contents);
    }

    /** `do_rehash` */
    method DoRehash()
      requires Valid() && (rehashAuto ==> dense)
      modifies this
      ensures Valid() && (old(dense) ==> dense) && Map() == old(Map()) && noObjects == old(noObjects)
      ensures rehashAuto == old(rehashAuto) && rehashThreshold == old(rehashThreshold)
      ensures fresh(owner.Keys - old(owner.Keys))
      ensures !rehashAuto ==> unchanged(this)
      ensures rehashAuto && 0.0 <= rehashThreshold < 1.0 ==> tableSize == if noObjects >= old(tableSize) then 2 * old(tableSize) else old(tableSize)
      ensures rehashAuto && 0.0 <= rehashThreshold < 1.0 && old(noObjects <= tableSize) ==> noObjects < tableSize
      decreases if rehashAuto then 5 else 0, 0
    {
      if !rehashAuto {
        return;
      }
      Counted();
      LoadFactor(noObjects, tableSize);
      var lf := noObjects / tableSize;
      if lf as real > rehashThreshold {
        var st := Rehash(tableSize * 2);
      }
    }

    method GrowAndInsert(key: Key, data: Data) returns (st: Status)
      requires Valid() && (rehashAuto ==> dense) && (eng == LIST || eng == LIST_MTF ==> key !in Map())
      modifies this, owner.Keys
      ensures Valid() && (old(dense) ==> dense) && fresh(owner.Keys - old(owner.Keys)) && noObjects == |Map()|
      ensures key in old(Map()) ==> st == ERR_DUPKEY && Map() == old(Map())
      ensures key !in old(Map()) ==> st == SUCCESS && Map() == old(Map())[key := data]
      ensures rehashAuto == old(rehashAuto) && rehashThreshold == old(rehashThreshold) && (!rehashAuto ==> tableSize == old(tableSize))
      ensures rehashAuto && 0.0 <= rehashThreshold < 1.0 && old(noObjects <= tableSize) ==> noObjects <= tableSize
      decreases if rehashAuto then 5 else 0, 1
    {
      DoRehash();
      ghost var k := owner.Keys;
      st := InsertNow(key, data);
      assert owner.Keys - old(owner.Keys) <= (owner.Keys - k) + (k - old(owner.Keys));
    }

    /** `hi_insert` */
    method Insert(key: Key, data: Data) returns (st: Status)
      requires Valid() && (rehashAuto ==> dense)
      modifies this, owner.Keys
      ensures Valid() && (old(dense) ==> dense) && fresh(owner.Keys - old(owner.Keys)) && noObjects == |Map()|
      ensures key in old(Map()) ==> st == ERR_DUPKEY && Map() == old(Map())
      ensures key !in old(Map()) ==> st == SUCCESS && Map() == old(Map())[key := data]
      ensures rehashAuto == old(rehashAuto) && rehashThreshold == old(rehashThreshold) && (!rehashAuto ==> tableSize == old(tableSize))
      ensures rehashAuto && 0.0 <= rehashThreshold < 1.0 && old(noObjects <= tableSize) ==> noObjects <= tableSize
      decreases if rehashAuto then 5 else 0, 2
    {
      st := Lookup(key);
      if st == SUCCESS {
        return ERR_DUPKEY;
      }
      st := GrowAndInsert(key, data);
    }

    /** `hi_lookup` */
    method Lookup(key: Key) returns (st: Status)
      requires Valid()
      ensures st == SUCCESS <==> (eng == LIST || eng == LIST_MTF) && key in Map()
      ensures noObjects == |Map()|
    {
      Opened();
      var b := hash(key) % tableSize;
      InBucket(hash, contents, key);
      ModelSize(hash, contents);
      assert Owned(b) && Sound(b);
      st := buckets[b].Lookup(key);
    }
  }

  /** `hi_create`: settings that fail the checks are refused, others give an empty table. */
  method Create(hash: Key -> nat, cmp: (Key, Key) -> int, eng: Engine, size: nat, arraySize: nat, auto: bool, threshold: real)
    returns (st: Status, t: Table?)
    requires TotalOrder(cmp)
    ensures size == 0 || (eng == ARRAY && arraySize == 0) ==> st == ERR_NODATA && t == null
    ensures size > 0 && (eng == ARRAY ==> arraySize > 0) ==>
      && st == SUCCESS && t != null && t.Valid() && t.Map() == map[] && t.noObjects == 0 && t.tableSize == size
      && t.eng == eng && t.rehashAuto == auto && t.rehashThreshold == threshold
  {
    if size == 0 {
      return ERR_NODATA, null;
    }
    if eng == ARRAY && arraySize == 0 {
      return ERR_NODATA, null;
    }
    st := SUCCESS;
    t := new Table(hash, cmp, eng, size, arraySize, auto, threshold);
  }

  /** A cursor over a table: `a` is a snapshot of one bucket, handed out from its end.
      `hi_iterator.c` */
  class Iter {
    const table: Table
    var bucket: nat
    var a: array<Option<Entry>>
    var nmemb: nat
    ghost var rest: seq<Entry>       // the entries of the snapshot still to be handed out

    ghost predicate Ok(hash: Key -> nat, n: nat)
      reads this, a
    {
      && n > 0 && |rest| == nmemb <= a.Length && a[..nmemb] == Somes(rest) && (nmemb > 0 ==> bucket < n)
      && forall j :: 0 <= j < |rest| ==> hash(rest[j].key) % n == bucket
    }

    /** What has not been handed out yet, if the buckets hold `cs`. */
    ghost function Pending(cs: seq<seq<Entry>>): multiset<Entry>
      reads this
    {
      multiset(rest) + Later(cs, bucket + 1)
    }

    constructor (table: Table)
      ensures this.table == table && bucket == 0 && nmemb == 0 && fresh(a)
    {
      this.table, this.bucket, this.nmemb, this.rest := table, 0, 0, [];
      this.a := new Option<Entry>[0];
    }

    /** `list_get_next_bucket`, `rbtree_get_next_tree` and `array_get_next_bucket`, from bucket `first` on. */
    method NextBucket(first: nat) returns (st: Status)
      requires table.Valid() && table.dense
      modifies this
      ensures Ok(table.hash, table.tableSize) && fresh(a) && st == (if nmemb == 0 then ERR_NODATA else SUCCESS)
      ensures Pending(table.contents) == Later(table.contents, first) && (nmemb == 0 <==> Pending(table.contents) == multiset{})
    {
      var b, snapshot;
      ghost var es;
      st, b, snapshot, es := FindBucket(table, first);
      Load(b, snapshot, es, table.contents, table.hash, table.tableSize);
    }

    method Load(b: nat, snapshot: array<Option<Entry>>, ghost es: seq<Entry>, ghost cs: seq<seq<Entry>>, ghost hash: Key -> nat, ghost n: nat)
      requires snapshot[..] == Somes(es) && n > 0 && (|es| > 0 ==> b < n) && forall j :: 0 <= j < |es| ==> hash(es[j].key) % n == b
      modifies this
      ensures Ok(hash, n) && a == snapshot && nmemb == |es| && Pending(cs) == multiset(es) + Later(cs, b + 1)
    {
      bucket, a, nmemb, rest := b, snapshot, snapshot.Length, es;
      assert a[..nmemb] == a[..];
    }

    /** Hands out the last entry of the snapshot. */
    method TakeLast(ghost cs: seq<seq<Entry>>, ghost hash: Key -> nat, ghost n: nat) returns (e: Option<Entry>)
      requires Ok(hash, n) && nmemb > 0
      modifies this`nmemb, this`rest
      ensures Ok(hash, n) && e.Some? && e.value in old(Pending(cs)) && Pending(cs) == old(Pending(cs)) - multiset{e.value}
      ensures hash(e.value.key) % n == bucket
    {
      ghost var r := rest;
      assert r == r[..nmemb - 1] + [r[nmemb - 1]];
      assert a[..nmemb][nmemb - 1] == Some(r[nmemb - 1]);
      nmemb := nmemb - 1;
      e := a[nmemb];
      rest := r[..nmemb];
      assert a[..nmemb] == Somes(rest);
    }

    /** `hi_iterator_getnext`: hands out one of the pending entries, and says so when there is none. */
    method GetNext() returns (st: Status, e: Option<Entry>)
      requires table.Valid() && table.dense && Ok(table.hash, table.tableSize)
      modifies this
      ensures Ok(table.hash, table.tableSize) && (a == old(a) || fresh(a))
      ensures var p := old(Pending(table.contents));
        if p == multiset{} then st == ERR_NODATA && e == None && Pending(table.contents) == p
        else && st == SUCCESS && e.Some? && e.value in p && Pending(table.contents) == p - multiset{e.value}
             && table.hash(e.value.key) % table.tableSize == bucket
    {
      e := None;
      st := Refresh();
      if st == SUCCESS {
        e := TakeLast(table.contents, table.hash, table.tableSize);
      }
    }

    /** If the snapshot is used up, the next one. */
    method Refresh() returns (st: Status)
      requires table.Valid() && table.dense && Ok(table.hash, table.tableSize)
      modifies this
      ensures Ok(table.hash, table.tableSize) && (a == old(a) || fresh(a)) && Pending(table.contents) == old(Pending(table.contents))
      ensures st == (if Pending(table.contents) == multiset{} then ERR_NODATA else SUCCESS) && (st == SUCCESS ==> nmemb > 0)
    {
      st := SUCCESS;
      if nmemb == 0 {
        assert Pending(table.contents) == Later(table.contents, bucket + 1);
        st := NextBucket(bucket + 1);
      } else {
        assert rest[0] in Pending(table.contents);
      }
    }
  }

  /** `e` is what the iterator gave last, with `p` pending before; of the entries seen so far those
      with `dead` data are gone. */
  ghost predicate Sweeping(t: Table, it: Iter, m: map<Key, Data>, dead: Data -> bool, p: multiset<Entry>)
    reads t, t.owner.Keys, it, it.a
  {
    && t.eng != ARRAY && it.table == t && it !in t.owner && it.a !in t.owner
    && forall z {:trigger Open(z)} :: Open(z) ==>
         t.Valid() && it.Ok(t.hash, t.tableSize) && it.Pending(t.contents) == p && Unseen(m, p) && Swept(m, t.Map(), p, dead)
  }

  lemma {:induction false} PendingAfterRemove(it: Iter, cs: seq<seq<Entry>>, ds: seq<seq<Entry>>)
    requires SameBut(cs, ds, it.bucket)
    ensures it.Pending(cs) == it.Pending(ds)
  {
    LaterSame(cs, ds, it.bucket + 1);
  }

  /** One round of the collector: the next entry, removed if it is dead. */
  method SweepNext(t: Table, it: Iter, dead: Data -> bool, ghost m: map<Key, Data>, ghost p: multiset<Entry>)
    returns (st: Status, ghost p': multiset<Entry>)
    requires Sweeping(t, it, m, dead, p)
    modifies it, t, t.owner.Keys
    ensures Sweeping(t, it, m, dead, p') && unchanged(t`owner, t`tableSize)
    ensures if p == multiset{} then st == ERR_NODATA && p' == p else st == SUCCESS && |p'| < |p|
  {
    var e;
    assert Open(0);
    ghost var cs := t.contents;
    st, e, p' := TakeNext(t, it, p);
    if st == SUCCESS {
      SweepOne(m, t.Map(), p, dead, e.value);
      if dead(e.value.data) {
        SweepEntry(t, it, e.value, p');
      }
    }
  }

  method TakeNext(t: Table, it: Iter, ghost p: multiset<Entry>)
    returns (st: Status, e: Option<Entry>, ghost p': multiset<Entry>)
    requires t.Valid() && t.dense && it.table == t && it !in t.owner && it.a !in t.owner && it.Ok(t.hash, t.tableSize) && it.Pending(t.contents) == p
    modifies it
    ensures t.Valid() && it !in t.owner && it.a !in t.owner && it.Ok(t.hash, t.tableSize) && it.Pending(t.contents) == p'
    ensures if p == multiset{} then st == ERR_NODATA && p' == p
            else && st == SUCCESS && e.Some? && e.value in p && p' == p - multiset{e.value}
                 && t.hash(e.value.key) % t.tableSize == it.bucket
  {
    t.Opened();
    st, e := it.GetNext();
    p' := it.Pending(t.contents);
  }

  method SweepEntry(t: Table, it: Iter, e: Entry, ghost p: multiset<Entry>)
    requires t.Valid() && it !in t.owner && it.a !in t.owner && it.Ok(t.hash, t.tableSize) && it.Pending(t.contents) == p
    requires t.hash(e.key) % t.tableSize == it.bucket && e.key in t.Map()
    modifies t`noObjects, t`contents, t`dense, t.owner.Keys
    ensures t.Valid() && unchanged(t`owner, t`tableSize) && unchanged(it) && it.Ok(t.hash, t.tableSize) && it.Pending(t.contents) == p
    ensures t.Map() == old(t.Map()) - {e.key}
  {
    ghost var cs := t.contents;
    var st, data := t.Remove(e.key);
    PendingAfterRemove(it, cs, t.contents);
  }

  method StartSweep(t: Table, it: Iter, dead: Data -> bool) returns (st: Status, ghost p: multiset<Entry>)
    requires t.Valid() && t.eng != ARRAY && it.table == t && it !in t.owner
    modifies it
    ensures Sweeping(t, it, t.Map(), dead, p) && st == if p == multiset{} then ERR_NODATA else SUCCESS
  {
    st, p := FirstBucket(t, it);
    SweepBegins(t, it, p, dead);
  }

  lemma SweepBegins(t: Table, it: Iter, p: multiset<Entry>, dead: Data -> bool)
    requires t.Valid() && t.eng != ARRAY && it.table == t && it !in t.owner && it.a !in t.owner
    requires it.Ok(t.hash, t.tableSize) && it.Pending(t.contents) == p == Later(t.contents, 0)
    ensures Sweeping(t, it, t.Map(), dead, p)
  {
    t.Opened();
    AllPending(t.hash, t.contents);
    AllUnswept(t.Map(), p, dead);
  }

  method FirstBucket(t: Table, it: Iter) returns (st: Status, ghost p: multiset<Entry>)
    requires t.Valid() && t.dense && it.table == t && it !in t.owner
    modifies it
    ensures t.Valid() && it.a !in t.owner && it.Ok(t.hash, t.tableSize) && it.Pending(t.contents) == p == Later(t.contents, 0)
    ensures st == if p == multiset{} then ERR_NODATA else SUCCESS
  {
    st := it.NextBucket(0);
    p := Later(t.contents, 0);
  }

  lemma SweepDone(t: Table, it: Iter, m: map<Key, Data>, dead: Data -> bool)
    requires Sweeping(t, it, m, dead, multiset{})
    ensures t.Valid() && t.noObjects == |t.Map()| && t.Map() == map key | key in m && !dead(m[key]) :: m[key]
  {
    assert Open(0);
    t.Counted();
    AllSwept(m, t.Map(), dead);
  }

  /** `garbadge_collect_osdpi_flows`: exactly the flows that have timed out are gone. */
  method CollectGarbage(t: Table, dead: Data -> bool)
    requires t.Valid() && t.eng != ARRAY
    modifies t, t.owner.Keys
    ensures t.Valid() && t.noObjects == |t.Map()|
    ensures t.Map() == map key | key in old(t.Map()) && !dead(old(t.Map())[key]) :: old(t.Map())[key]
  {
    var it := new Iter(t);
    var st;
    ghost var p;
    ghost var m := t.Map();
    st, p := StartSweep(t, it, dead);
    if st == SUCCESS {
      while st == SUCCESS
        invariant Sweeping(t, it, m, dead, p) && unchanged(t`owner) && fresh(it)
        invariant st != SUCCESS ==> p == multiset{}
        decreases |p|, st == SUCCESS
      {
        st, p := SweepNext(t, it, dead, m, p);
      }
    }
    SweepDone(t, it, m, dead);
  }

  /** A loop over `hi_iterator_getnext` that leaves the table alone. */
  ghost predicate Walking(t: Table, it: Iter, all: multiset<Entry>, seen: seq<Entry>, p: multiset<Entry>)
    reads t, t.owner.Keys, it, it.a
  {
    && t.dense && it.table == t && it !in t.owner && it.a !in t.owner && multiset(seen) + p == all
    && forall z {:trigger Open(z)} :: Open(z) ==>
         t.Valid() && it.Ok(t.hash, t.tableSize) && it.Pending(t.contents) == p
  }

  method WalkNext(t: Table, it: Iter, ghost all: multiset<Entry>, seen: seq<Entry>, ghost p: multiset<Entry>)
    returns (st: Status, seen': seq<Entry>, ghost p': multiset<Entry>)
    requires Walking(t, it, all, seen, p)
    modifies it
    ensures Walking(t, it, all, seen', p')
    ensures if p == multiset{} then st == ERR_NODATA && p' == p else st == SUCCESS && |p'| < |p|
  {
    var e;
    assert Open(0);
    seen' := seen;
    st, e, p' := TakeNext(t, it, p);
    if st == SUCCESS {
      OneSeen(all, seen, p, e.value);
      seen' := seen + [e.value];
    }
  }

  lemma OneSeen(all: multiset<Entry>, seen: seq<Entry>, p: multiset<Entry>, e: Entry)
    requires multiset(seen) + p == all && e in p
    ensures multiset(seen + [e]) + (p - multiset{e}) == all && |p - multiset{e}| < |p|
  {}

  /** Every entry of the table is handed out exactly once. */
  method WalkAll(t: Table) returns (seen: seq<Entry>)
    requires t.Valid() && t.dense
    ensures multiset(seen) == multiset(All(t.contents)) && |seen| == |t.Map()|
    ensures forall key, data :: Entry(key, data) in seen <==> key in t.Map() && t.Map()[key] == data
  {
    var it := new Iter(t);
    var st;
    seen := [];
    ghost var all := Later(t.contents, 0);
    ghost var p := all;
    st := StartWalk(t, it);
    while st == SUCCESS
      invariant Walking(t, it, all, seen, p) && fresh(it)
      invariant st != SUCCESS ==> p == multiset{}
      decreases |p|, st == SUCCESS
    {
      st, seen, p := WalkNext(t, it, all, seen, p);
    }
    WalkEnd(t, it, seen);
  }

  lemma WalkEnd(t: Table, it: Iter, seen: seq<Entry>)
    requires Walking(t, it, Later(t.contents, 0), seen, multiset{})
    ensures multiset(seen) == multiset(All(t.contents)) && |seen| == |t.Map()|
    ensures forall key, data :: Entry(key, data) in seen <==> key in t.Map() && t.Map()[key] == data
  {
    assert Open(0);
    WalkDone(t.hash, t.contents, seen);
  }

  method StartWalk(t: Table, it: Iter) returns (st: Status)
    requires t.Valid() && t.dense && it.table == t && it !in t.owner
    modifies it
    ensures Walking(t, it, Later(t.contents, 0), [], Later(t.contents, 0))
    ensures st == if Later(t.contents, 0) == multiset{} then ERR_NODATA else SUCCESS
  {
    t.Opened();
    st := it.NextBucket(0);
  }

  lemma WalkDone(hash: Key -> nat, cs: seq<seq<Entry>>, seen: seq<Entry>)
    requires Placed(hash, cs) && multiset(seen) == Later(cs, 0)
    ensures multiset(seen) == multiset(All(cs)) && |seen| == |Model(cs)|
    ensures forall key, data :: Entry(key, data) in seen <==> key in Model(cs) && Model(cs)[key] == data
  {
    LaterFirst(cs);
    AllUnique(hash, cs);
    ModelSize(hash, cs);
    ReorderedEntries(All(cs), seen);
    forall key, data
      ensures Entry(key, data) in seen <==> key in Model(cs) && Model(cs)[key] == data
    {
      MapEntry(All(cs), key, data);
    }
  }

  // ----- every sequence of operations -----------------------------------------------------------

  datatype Op = InsertOp(key: Key, data: Data) | GetOp(key: Key) | RemoveOp(key: Key)

  datatype Outcome = Outcome(st: Status, res: Option<Data>)

  /** What an abstract map answers, and what it becomes. */
  function Apply(m: map<Key, Data>, op: Op): (map<Key, Data>, Outcome) {
    match op
    case InsertOp(key, data) =>
      if key in m then (m, Outcome(ERR_DUPKEY, None)) else (m[key := data], Outcome(SUCCESS, None))
    case GetOp(key) =>
      if key in m then (m, Outcome(SUCCESS, Some(m[key]))) else (m, Outcome(ERR_NOKEY, None))
    case RemoveOp(key) =>
      if key in m then (m - {key}, Outcome(SUCCESS, Some(m[key]))) else (m, Outcome(ERR_NOKEY, None))
  }

  function ApplyAll(m: map<Key, Data>, ops: seq<Op>): (map<Key, Data>, seq<Outcome>) {
    if ops == [] then (m, [])
    else
      var (m1, outs) := ApplyAll(m, ops[..|ops| - 1]);
      var (m2, out) := Apply(m1, ops[|ops| - 1]);
      (m2, outs + [out])
  }

  method Perform(t: Table, op: Op) returns (out: Outcome)
    requires t.Valid() && (t.rehashAuto && op.InsertOp? ==> t.dense)
    modifies t, t.owner.Keys
    ensures old(t.dense) && !op.RemoveOp? ==> t.dense
    ensures t.Valid() && t.rehashAuto == old(t.rehashAuto) && t.rehashThreshold == old(t.rehashThreshold)
    ensures fresh(t.owner.Keys - old(t.owner.Keys)) && t.noObjects == |t.Map()|
    ensures (t.Map(), out) == Apply(old(t.Map()), op)
    ensures t.rehashAuto && 0.0 <= t.rehashThreshold < 1.0 && old(t.noObjects <= t.tableSize) ==> t.noObjects <= t.tableSize
  {
    var st, res := SUCCESS, None;
    t.Counted();
    match op {
      case InsertOp(key, data) => st := t.Insert(key, data);
      case GetOp(key) => st, res := t.Get(key);
      case RemoveOp(key) => st, res := t.Remove(key);
    }
    out := Outcome(st, res);
    t.Counted();
  }

  predicate NoInsertAfterRemove(ops: seq<Op>) {
    forall i, j :: 0 <= i < j < |ops| && ops[i].RemoveOp? ==> !ops[j].InsertOp?
  }

  /** Whatever the engine and whatever the operations: the answers are those of one map, the object
      count is its size, and a table that grows by itself never holds more objects than buckets.
      A table of arrays may have holes after a removal, so it must not grow then. */
  method PerformAll(t: Table, ops: seq<Op>) returns (outs: seq<Outcome>)
    requires t.Valid() && (t.rehashAuto && t.eng == ARRAY ==> t.dense && NoInsertAfterRemove(ops))
    modifies t, t.owner.Keys
    ensures t.Valid() && (t.Map(), outs) == ApplyAll(old(t.Map()), ops) && t.noObjects == |t.Map()|
    ensures t.rehashAuto && 0.0 <= t.rehashThreshold < 1.0 && old(t.noObjects <= t.tableSize) ==> t.noObjects <= t.tableSize
  {
    outs := [];
    var i := 0;
    t.Counted();
    while i < |ops|
      invariant 0 <= i <= |ops| && t.Valid() && t.rehashAuto == old(t.rehashAuto) && t.rehashThreshold == old(t.rehashThreshold)
      invariant fresh(t.owner.Keys - old(t.owner.Keys)) && t.noObjects == |t.Map()|
      invariant (t.Map(), outs) == ApplyAll(old(t.Map()), ops[..i])
      invariant t.rehashAuto ==> t.dense || exists j :: 0 <= j < i && ops[j].RemoveOp?
      invariant t.rehashAuto && 0.0 <= t.rehashThreshold < 1.0 && old(t.noObjects <= t.tableSize) ==> t.noObjects <= t.tableSize
    {
      var out := Perform(t, ops[i]);
      assert ops[..i + 1][..i] == ops[..i];
      outs := outs + [out];
      i := i + 1;
    }
    assert ops[..i] == ops;
  }

  /** A snapshot of a bucket, whatever the engine. In a table that is dense each one has all the
      entries of its bucket; in any other there is a bucket for which it has not. */
  method AnySnapshot(table: Table, b: nat) returns (a: array<Option<Entry>>, ghost complete: bool)
    requires table.Valid() && b < table.tableSize
    ensures b < |table.contents| && fresh(a) && a.Length == |table.contents[b]|
    ensures complete <==> exists es :: a[..] == Somes(es) && multiset(es) == multiset(table.contents[b])
    ensures complete <==> b < |table.buckets| && table.buckets[b].dense
  {
    table.Opened();
    assert table.Sound(b) && table.Owned(b);
    var st;
    ghost var es;
    st, a, es := table.buckets[b].ToArray();
    complete := table.buckets[b].dense;
    if complete {
      assert a[..] == Somes(es) && multiset(es) == multiset(table.contents[b]);
    } else {
      NotWritten(a[..], a.Length - 1);
    }
  }

  lemma NotWritten(a: seq<Option<Entry>>, k: nat)
    requires k < |a| && a[k] == None
    ensures forall es :: a != Somes(es)
  {
    forall es
      ensures a != Somes(es)
    {
      assert k < |es| ==> Somes(es)[k] == Some(es[k]);
    }
  }

  /** Slot `i` of bucket `b` holds an entry, and is behind the slots that a snapshot copies. */
  ghost predicate Overlooked(table: Table, b: nat, i: nat)
    reads table, table.buckets, set k | 0 <= k < |table.buckets| :: table.buckets[k].arr, set k | 0 <= k < |table.buckets| :: table.buckets[k].arr.slots
  {
    && b < |table.buckets| && b < |table.contents| && table.eng == ARRAY
    && |table.contents[b]| <= i < table.buckets[b].arr.slots.Length && table.buckets[b].arr.slots[i].Allocated?
  }

  /** A table is dense exactly if no entry of it is overlooked. */
  lemma DenseIff(table: Table)
    requires table.Valid()
    ensures table.dense <==> forall b, i :: !Overlooked(table, b, i)
  {
    table.Opened();
    if table.dense {
      forall b: nat, i: nat
        ensures !Overlooked(table, b, i)
      {
        if b < |table.buckets| && table.eng == ARRAY {
          assert table.Owned(b) && table.Sound(b);
          var slots := table.buckets[b].arr.slots[..];
          if |table.contents[b]| <= i < |slots| {
            ArrayEngine.NoneBehind(slots, i);
          }
        }
      }
    } else {
      var b :| 0 <= b < |table.buckets| && !table.buckets[b].dense;
      assert table.Owned(b) && table.Sound(b);
      var slots := table.buckets[b].arr.slots[..];
      ArrayEngine.CopyIff(slots, |table.contents[b]|);
      var i :| |table.contents[b]| <= i < |slots| && slots[i].Allocated?;
      assert Overlooked(table, b, i);
    }
  }

  /** The loop for the next bucket that has entries. */
  method FindBucket(table: Table, first: nat) returns (st: Status, b: nat, a: array<Option<Entry>>, ghost es: seq<Entry>)
    requires table.Valid() && table.dense
    ensures table.tableSize > 0 && fresh(a) && a[..] == Somes(es) && st == (if |es| == 0 then ERR_NODATA else SUCCESS) && (|es| > 0 ==> b < table.tableSize)
    ensures forall j :: 0 <= j < |es| ==> table.hash(es[j].key) % table.tableSize == b
    ensures multiset(es) + Later(table.contents, b + 1) == Later(table.contents, first)
    ensures |es| == 0 <==> Later(table.contents, first) == multiset{}
  {
    b := first;
    while b < table.tableSize
      invariant Later(table.contents, b) == Later(table.contents, first)
      decreases table.tableSize - b
    {
      st, a, es := Snapshot(table, b);
      if st == SUCCESS {
        assert es[0] in multiset(es);
        return;
      }
      b := b + 1;
    }
    a := new Option<Entry>[0];
    return ERR_NODATA, b, a, [];
  }

  /** `lhi_list_bucket_to_array`, `lhi_rbtree_bucket_to_array` or `lhi_array_bucket_to_array` */
  method Snapshot(table: Table, b: nat) returns (st: Status, a: array<Option<Entry>>, ghost es: seq<Entry>)
    requires table.Valid() && table.dense && b < table.tableSize
    ensures b < |table.contents| && st == if |table.contents[b]| == 0 then ERR_NODATA else SUCCESS
    ensures fresh(a) && a[..] == Somes(es) && |es| == |table.contents[b]| && multiset(es) == multiset(table.contents[b])
    ensures forall j :: 0 <= j < |es| ==> table.hash(es[j].key) % table.tableSize == b
  {
    table.Opened();
    ghost var cs := table.contents;
    assert InPlace(table.hash, |cs|, b, cs[b]) && table.Sound(b) && table.Owned(b);
    st, a, es := table.buckets[b].ToArray();
    ReorderedEntries(cs[b], es);
    forall j | 0 <= j < |es|
      ensures table.hash(es[j].key) % table.tableSize == b
    {
      assert es[j] in cs[b];
    }
  }

  /** What a removal from its bucket does to the contents. */
  ghost predicate Taken(cs: seq<seq<Entry>>, ds: seq<seq<Entry>>, b: nat, key: Key, st: Status, res: Option<Data>, pos: nat)
    requires b < |cs|
  {
    if HasKey(cs[b], key) then
      && st == SUCCESS && res.Some? && pos < |cs[b]| && cs[b][pos] == Entry(key, res.value)
      && ds == cs[b := Removed(cs[b], pos)]
    else st == ERR_NOKEY && res == None && ds == cs
  }

  ghost predicate Given(cs: seq<seq<Entry>>, ds: seq<seq<Entry>>, b: nat, e: Entry, st: Status, pos: nat)
    requires b < |cs|
  {
    if HasKey(cs[b], e.key) then st == ERR_DUPKEY && ds == cs
    else st == SUCCESS && pos <= |cs[b]| && ds == cs[b := Added(cs[b], pos, e)]
  }

  lemma InBucket(hash: Key -> nat, cs: seq<seq<Entry>>, key: Key)
    requires Placed(hash, cs)
    ensures key in Model(cs) <==> HasKey(cs[hash(key) % |cs|], key)
  {
    TableModel.Lookup(hash, cs, key);
  }

  lemma InsertOutcome(hash: Key -> nat, cs: seq<seq<Entry>>, ds: seq<seq<Entry>>, e: Entry, st: Status, pos: nat)
    requires Placed(hash, cs) && Given(cs, ds, hash(e.key) % |cs|, e, st, pos)
    ensures Placed(hash, ds) && |Model(ds)| == |All(ds)| && |All(ds)| == |All(cs)| + if st == SUCCESS then 1 else 0
    ensures e.key in Model(cs) ==> st == ERR_DUPKEY && Model(ds) == Model(cs)
    ensures e.key !in Model(cs) ==> st == SUCCESS && Model(ds) == Model(cs)[e.key := e.data]
  {
    TableModel.Lookup(hash, cs, e.key);
    if st == SUCCESS {
      InsertModel(hash, cs, pos, e);
    }
    ModelSize(hash, ds);
  }

  lemma RemoveOutcome(hash: Key -> nat, cs: seq<seq<Entry>>, ds: seq<seq<Entry>>, key: Key, st: Status, res: Option<Data>, pos: nat)
    requires Placed(hash, cs) && Taken(cs, ds, hash(key) % |cs|, key, st, res, pos)
    ensures SameBut(cs, ds, hash(key) % |cs|)
    ensures Placed(hash, ds) && |Model(ds)| == |All(ds)| && |All(ds)| == |All(cs)| - if st == SUCCESS then 1 else 0
    ensures key !in Model(cs) ==> st == ERR_NOKEY && res == None && Model(ds) == Model(cs)
    ensures key in Model(cs) ==> st == SUCCESS && res == Some(Model(cs)[key]) && Model(ds) == Model(cs) - {key}
  {
    var b := hash(key) % |cs|;
    TableModel.Lookup(hash, cs, key);
    if st == SUCCESS {
      assert cs[b][pos] in cs[b];
      RemoveModel(hash, cs, pos, key);
    }
    ModelSize(hash, ds);
  }

  lemma LoadFactor(n: nat, size: nat)
    requires size > 0
    ensures n / size >= 1 <==> n >= size
  {}

  ghost predicate AllDense(bs: seq<Bucket>)
    reads bs`dense
  {
    forall i :: 0 <= i < |bs| ==> bs[i].dense
  }

  ghost function EntriesIn(bs: seq<Bucket>): (cs: seq<seq<Entry>>)
    reads bs`entries
    ensures |cs| == |bs| && forall i :: 0 <= i < |bs| ==> cs[i] == bs[i].entries
  {
    if bs == [] then [] else EntriesIn(bs[..|bs| - 1]) + [bs[|bs| - 1].entries]
  }

  ghost function Claim(owner: map<object, nat>, mine: set<object>, b: nat): (r: map<object, nat>)
    ensures r.Keys == owner.Keys + mine
    ensures forall o :: o in mine ==> r[o] == b
    ensures forall o :: o in owner && o !in mine ==> r[o] == owner[o]
  {
    owner + map o | o in mine :: b
  }
}
