/** What a table of buckets stands for, whatever the engine: the map of all its entries. */
module TableModel {
  import opened Entries

  /** All entries, bucket after bucket. */
  ghost function All(cs: seq<seq<Entry>>): seq<Entry> {
    if cs == [] then [] else All(cs[..|cs| - 1]) + cs[|cs| - 1]
  }

  ghost function Model(cs: seq<seq<Entry>>): map<Key, Data> {
    MapOf(All(cs))
  }

  /** Bucket `b` of `n`: no key twice, and only keys that hash to it. */
  ghost predicate InPlace(hash: Key -> nat, n: nat, b: nat, es: seq<Entry>)
    requires n > 0
  {
    Unique(es) && forall j :: 0 <= j < |es| ==> hash(es[j].key) % n == b
  }

  ghost predicate Placed(hash: Key -> nat, cs: seq<seq<Entry>>) {
    |cs| > 0 && forall b {:trigger InPlace(hash, |cs|, b, cs[b])} :: 0 <= b < |cs| ==> InPlace(hash, |cs|, b, cs[b])
  }

  lemma AllSnoc(cs: seq<seq<Entry>>, i: nat)
    requires i < |cs|
    ensures All(cs[..i + 1]) == All(cs[..i]) + cs[i]
  {
    assert cs[..i + 1][..i] == cs[..i];
  }

  lemma {:induction false} AllIn(hash: Key -> nat, cs: seq<seq<Entry>>, n: nat, e: Entry)
    requires Placed(hash, cs) && n <= |cs|
    ensures e in All(cs[..n]) <==> hash(e.key) % |cs| < n && e in cs[hash(e.key) % |cs|]
  {
    if n > 0 {
      AllSnoc(cs, n - 1);
      AllIn(hash, cs, n - 1, e);
      assert InPlace(hash, |cs|, n - 1, cs[n - 1]);
    }
  }

  lemma InAll(hash: Key -> nat, cs: seq<seq<Entry>>, e: Entry)
    requires Placed(hash, cs)
    ensures e in All(cs) <==> e in cs[hash(e.key) % |cs|]
  {
    AllIn(hash, cs, |cs|, e);
    assert cs[..|cs|] == cs;
  }

  lemma {:induction false} AllUniqueUpto(hash: Key -> nat, cs: seq<seq<Entry>>, n: nat)
    requires Placed(hash, cs) && n <= |cs|
    ensures Unique(All(cs[..n]))
  {
    if n > 0 {
      AllSnoc(cs, n - 1);
      AllUniqueUpto(hash, cs, n - 1);
      var s, t := All(cs[..n - 1]), cs[n - 1];
      assert InPlace(hash, |cs|, n - 1, t);
      forall i, j | 0 <= i < |s| && 0 <= j < |t|
        ensures s[i].key != t[j].key
      {
        AllIn(hash, cs, n - 1, s[i]);
      }
    }
  }

  lemma AllUnique(hash: Key -> nat, cs: seq<seq<Entry>>)
    requires Placed(hash, cs)
    ensures Unique(All(cs))
  {
    AllUniqueUpto(hash, cs, |cs|);
    assert cs[..|cs|] == cs;
  }

  /** A map and the entries it stands for. */
  lemma MapEntry(es: seq<Entry>, key: Key, data: Data)
    requires Unique(es)
    ensures Entry(key, data) in es <==> key in MapOf(es) && MapOf(es)[key] == data
  {
    KeyAt(es, key);
    if HasKey(es, key) {
      var i :| 0 <= i < |es| && es[i].key == key;
      assert Entry(key, MapOf(es)[key]) == es[i];
    }
  }

  /** A key is in the map if and only if it is in its bucket, with the same data. */
  lemma Lookup(hash: Key -> nat, cs: seq<seq<Entry>>, key: Key)
    requires Placed(hash, cs)
    ensures key in Model(cs) <==> HasKey(cs[hash(key) % |cs|], key)
    ensures forall data :: Entry(key, data) in cs[hash(key) % |cs|] <==> key in Model(cs) && Model(cs)[key] == data
  {
    AllUnique(hash, cs);
    var es := cs[hash(key) % |cs|];
    forall data
      ensures Entry(key, data) in es <==> key in Model(cs) && Model(cs)[key] == data
    {
      InAll(hash, cs, Entry(key, data));
      MapEntry(All(cs), key, data);
    }
    if HasKey(es, key) {
      var i :| 0 <= i < |es| && es[i].key == key;
      assert Entry(key, es[i].data) in es;
    }
    if key in Model(cs) {
      var data := Model(cs)[key];
      assert Entry(key, data) in es;
    }
  }

  /** Two tables with the same entries, in whatever buckets and order, stand for the same map. */
  lemma SameModel(cs: seq<seq<Entry>>, ds: seq<seq<Entry>>)
    requires Unique(All(cs)) && Unique(All(ds)) && forall e :: e in All(cs) <==> e in All(ds)
    ensures Model(cs) == Model(ds)
  {
    SameEntriesSameMap(All(cs), All(ds));
  }

  // ----- one bucket changes ---------------------------------------------------------------------

  lemma {:induction false} SizeUpdate(cs: seq<seq<Entry>>, b: nat, es: seq<Entry>)
    requires b < |cs|
    ensures |All(cs[b := es])| == |All(cs)| - |cs[b]| + |es|
  {
    var ds := cs[b := es];
    if b == |cs| - 1 {
      assert ds[..|cs| - 1] == cs[..|cs| - 1];
    } else {
      SizeUpdate(cs[..|cs| - 1], b, es);
      assert ds[..|cs| - 1] == cs[..|cs| - 1][b := es];
    }
  }

  lemma UpdatePlaced(hash: Key -> nat, cs: seq<seq<Entry>>, b: nat, es: seq<Entry>)
    requires Placed(hash, cs) && b < |cs| && InPlace(hash, |cs|, b, es)
    ensures Placed(hash, cs[b := es]) && Unique(All(cs[b := es]))
    ensures forall e :: e in All(cs[b := es]) <==> if hash(e.key) % |cs| == b then e in es else e in All(cs)
  {
    var ds := cs[b := es];
    assert Placed(hash, ds);
    AllUnique(hash, ds);
    forall e
      ensures e in All(ds) <==> if hash(e.key) % |cs| == b then e in es else e in All(cs)
    {
      InAll(hash, ds, e);
      InAll(hash, cs, e);
    }
  }

  lemma AddedEntries(es: seq<Entry>, pos: nat, e: Entry)
    requires pos <= |es|
    ensures forall x :: x in Added(es, pos, e) <==> x in es || x == e
  {
    assert es == es[..pos] + es[pos..];
  }

  lemma RemovedEntries(es: seq<Entry>, pos: nat)
    requires pos < |es| && Unique(es)
    ensures forall x :: x in Removed(es, pos) <==> x in es && x != es[pos]
  {
    var t := Removed(es, pos);
    forall x
      ensures x in t <==> x in es && x != es[pos]
    {
      if x in es && x != es[pos] {
        var i :| 0 <= i < |es| && es[i] == x;
        assert x == t[if i < pos then i else i - 1];
      }
      if x in t {
        var i :| 0 <= i < |t| && t[i] == x;
        assert x == es[if i < pos then i else i + 1];
      }
    }
  }

  lemma AddedInPlace(hash: Key -> nat, n: nat, b: nat, es: seq<Entry>, pos: nat, e: Entry)
    requires n > 0 && InPlace(hash, n, b, es) && pos <= |es| && !HasKey(es, e.key) && hash(e.key) % n == b
    ensures InPlace(hash, n, b, Added(es, pos, e))
  {
    AddedMap(es, pos, e);
  }

  lemma RemovedInPlace(hash: Key -> nat, n: nat, b: nat, es: seq<Entry>, pos: nat)
    requires n > 0 && InPlace(hash, n, b, es) && pos < |es|
    ensures InPlace(hash, n, b, Removed(es, pos))
  {
    RemovedMap(es, pos);
  }

  lemma InsertModel(hash: Key -> nat, cs: seq<seq<Entry>>, pos: nat, e: Entry)
    requires Placed(hash, cs) && e.key !in Model(cs)
    requires pos <= |cs[hash(e.key) % |cs|]|
    ensures var b := hash(e.key) % |cs|; var ds := cs[b := Added(cs[b], pos, e)];
      Placed(hash, ds) && Model(ds) == Model(cs)[e.key := e.data] && |All(ds)| == |All(cs)| + 1
  {
    var b := hash(e.key) % |cs|;
    var es := Added(cs[b], pos, e);
    Lookup(hash, cs, e.key);
    assert InPlace(hash, |cs|, b, cs[b]);
    AddedInPlace(hash, |cs|, b, cs[b], pos, e);
    UpdatePlaced(hash, cs, b, es);
    SizeUpdate(cs, b, es);
    AddedEntries(cs[b], pos, e);
    AllUnique(hash, cs);
    var ds := cs[b := es];
    forall x
      ensures x in All(ds) <==> x in All(cs) || x == e
    {
      InAll(hash, cs, x);
    }
    MapAdded(All(cs), All(ds), e);
  }

  lemma MapAdded(es: seq<Entry>, fs: seq<Entry>, e: Entry)
    requires Unique(es) && Unique(fs) && (forall x :: x in fs <==> x in es || x == e) && !(e.key in MapOf(es))
    ensures MapOf(fs) == MapOf(es)[e.key := e.data]
  {
    KeyAt(es, e.key);
    AddedMap(es, |es|, e);
    AddedEntries(es, |es|, e);
    SameEntriesSameMap(Added(es, |es|, e), fs);
  }

  lemma MapRemoved(es: seq<Entry>, fs: seq<Entry>, e: Entry)
    requires Unique(es) && Unique(fs) && e in es && forall x :: x in fs <==> x in es && x != e
    ensures MapOf(fs) == MapOf(es) - {e.key}
  {
    var i :| 0 <= i < |es| && es[i] == e;
    RemovedMap(es, i);
    RemovedEntries(es, i);
    SameEntriesSameMap(Removed(es, i), fs);
  }

  lemma RemoveModel(hash: Key -> nat, cs: seq<seq<Entry>>, pos: nat, key: Key)
    requires Placed(hash, cs) && pos < |cs[hash(key) % |cs|]| && cs[hash(key) % |cs|][pos].key == key
    ensures var b := hash(key) % |cs|; var ds := cs[b := Removed(cs[b], pos)];
      Placed(hash, ds) && Model(ds) == Model(cs) - {key} && |All(ds)| == |All(cs)| - 1
  {
    var b := hash(key) % |cs|;
    var es, e := Removed(cs[b], pos), cs[b][pos];
    assert InPlace(hash, |cs|, b, cs[b]);
    RemovedInPlace(hash, |cs|, b, cs[b], pos);
    UpdatePlaced(hash, cs, b, es);
    SizeUpdate(cs, b, es);
    RemovedEntries(cs[b], pos);
    AllUnique(hash, cs);
    var ds := cs[b := es];
    forall x
      ensures x in All(ds) <==> x in All(cs) && x != e
    {
      InAll(hash, cs, x);
    }
    InAll(hash, cs, e);
    MapRemoved(All(cs), All(ds), e);
  }

  /** A bucket whose entries only change places. */
  lemma ReorderModel(hash: Key -> nat, cs: seq<seq<Entry>>, b: nat, es: seq<Entry>)
    requires Placed(hash, cs) && b < |cs| && Unique(es) && |es| == |cs[b]| && forall x :: x in es <==> x in cs[b]
    ensures Placed(hash, cs[b := es]) && Model(cs[b := es]) == Model(cs) && |All(cs[b := es])| == |All(cs)|
  {
    assert InPlace(hash, |cs|, b, cs[b]);
    forall j | 0 <= j < |es|
      ensures hash(es[j].key) % |cs| == b
    {
      assert es[j] in cs[b];
    }
    UpdatePlaced(hash, cs, b, es);
    SizeUpdate(cs, b, es);
    AllUnique(hash, cs);
    forall x
      ensures x in All(cs[b := es]) <==> x in All(cs)
    {
      InAll(hash, cs, x);
    }
    SameModel(cs[b := es], cs);
  }

  /** The number of entries is the size of the map. */
  lemma ModelSize(hash: Key -> nat, cs: seq<seq<Entry>>)
    requires Placed(hash, cs)
    ensures |Model(cs)| == |All(cs)|
  {
    AllUnique(hash, cs);
    MapSize(All(cs));
  }

  lemma {:induction false} EmptyAll(cs: seq<seq<Entry>>)
    requires forall i :: 0 <= i < |cs| ==> cs[i] == []
    ensures All(cs) == []
  {
    if cs != [] { EmptyAll(cs[..|cs| - 1]); }
  }

  lemma EmptyTable(hash: Key -> nat, cs: seq<seq<Entry>>)
    requires |cs| > 0 && forall i :: 0 <= i < |cs| ==> cs[i] == []
    ensures Placed(hash, cs) && All(cs) == [] && Model(cs) == map[]
  {
    EmptyAll(cs);
  }

  // ----- iteration ------------------------------------------------------------------------------

  /** The entries of the buckets from `b` on. */
  ghost function Later(cs: seq<seq<Entry>>, b: nat): multiset<Entry>
    decreases |cs| - b
  {
    if b >= |cs| then multiset{} else multiset(cs[b]) + Later(cs, b + 1)
  }

  lemma {:induction false} LaterAll(cs: seq<seq<Entry>>, b: nat)
    requires b <= |cs|
    ensures multiset(All(cs)) == multiset(All(cs[..b])) + Later(cs, b)
    decreases |cs| - b
  {
    if b == |cs| {
      assert cs[..b] == cs;
    } else {
      AllSnoc(cs, b);
      LaterAll(cs, b + 1);
    }
  }

  /** Before the first bucket everything is still to come. */
  lemma LaterFirst(cs: seq<seq<Entry>>)
    ensures Later(cs, 0) == multiset(All(cs))
  {
    LaterAll(cs, 0);
    assert cs[..0] == [];
  }

  /** What is still to come depends on the buckets that are still to come alone. */
  lemma {:induction false} LaterSame(cs: seq<seq<Entry>>, ds: seq<seq<Entry>>, b: nat)
    requires |cs| == |ds| && forall i :: b <= i < |cs| ==> cs[i] == ds[i]
    ensures Later(cs, b) == Later(ds, b)
    decreases |cs| - b
  {
    if b < |cs| { LaterSame(cs, ds, b + 1); }
  }

  /** Only bucket `b` may differ. */
  ghost predicate SameBut(cs: seq<seq<Entry>>, ds: seq<seq<Entry>>, b: nat) {
    |cs| == |ds| && forall i :: 0 <= i < |cs| && i != b ==> cs[i] == ds[i]
  }

  /** The pending entries are entries of the map, each pending once. */
  ghost predicate Unseen(m: map<Key, Data>, p: multiset<Entry>) {
    forall e :: e in p ==> p[e] == 1 && e.key in m && m[e.key] == e.data
  }

  lemma {:induction false} UniqueOnce(es: seq<Entry>, e: Entry)
    requires Unique(es)
    ensures multiset(es)[e] <= 1
  {
    if es != [] {
      var n := |es| - 1;
      UniqueOnce(es[..n], e);
      assert es == es[..n] + [es[n]];
      if e == es[n] {
        assert e !in es[..n];
      }
    }
  }

  /** At the start every entry of the map is pending. */
  lemma AllPending(hash: Key -> nat, cs: seq<seq<Entry>>)
    requires Placed(hash, cs)
    ensures Unseen(Model(cs), Later(cs, 0))
    ensures forall key :: key in Model(cs) ==> Entry(key, Model(cs)[key]) in Later(cs, 0)
    ensures Model(cs) == map[] <==> Later(cs, 0) == multiset{}
  {
    LaterFirst(cs);
    AllUnique(hash, cs);
    var es, p := All(cs), Later(cs, 0);
    forall e | e in p
      ensures p[e] == 1 && e.key in Model(cs) && Model(cs)[e.key] == e.data
    {
      UniqueOnce(es, e);
      assert e in es;
      MapEntry(es, e.key, e.data);
    }
    forall key | key in Model(cs)
      ensures Entry(key, Model(cs)[key]) in p
    {
      MapEntry(es, key, Model(cs)[key]);
      assert Entry(key, Model(cs)[key]) in es;
    }
    assert p != multiset{} ==> exists e :: e in p;
    if Model(cs) != map[] {
      var key :| key in Model(cs);
      assert Entry(key, Model(cs)[key]) in p;
    }
  }

  /** `tm` holds the entries of `m` that are not pending any more. */
  ghost predicate Moved(m: map<Key, Data>, tm: map<Key, Data>, p: multiset<Entry>) {
    && (forall key :: key in tm <==> key in m && Entry(key, m[key]) !in p)
    && (forall key :: key in tm ==> tm[key] == m[key])
  }

  lemma MoveOne(m: map<Key, Data>, tm: map<Key, Data>, p: multiset<Entry>, e: Entry)
    requires Unseen(m, p) && Moved(m, tm, p) && e in p
    ensures e.key !in tm && Unseen(m, p - multiset{e}) && Moved(m, tm[e.key := e.data], p - multiset{e})
  {
    var q := p - multiset{e};
    assert e !in q;
    assert forall x :: x != e ==> p[x] == q[x];
  }

  lemma AllMoved(m: map<Key, Data>, tm: map<Key, Data>)
    requires Moved(m, tm, multiset{})
    ensures tm == m
  {
    assert forall key :: key in m ==> Entry(key, m[key]) !in multiset{};
  }

  /** `tm` is what is left of `m` when of the entries seen so far those with `dead` data are gone. */
  ghost predicate Swept(m: map<Key, Data>, tm: map<Key, Data>, p: multiset<Entry>, dead: Data -> bool) {
    && (forall key :: key in tm <==> key in m && (Entry(key, m[key]) in p || !dead(m[key])))
    && (forall key :: key in tm ==> tm[key] == m[key])
  }

  /** Before the first round every entry is pending, and none is gone. */
  lemma AllUnswept(m: map<Key, Data>, p: multiset<Entry>, dead: Data -> bool)
    requires forall key :: key in m ==> Entry(key, m[key]) in p
    ensures Swept(m, m, p, dead)
  {}

  lemma SweepOne(m: map<Key, Data>, tm: map<Key, Data>, p: multiset<Entry>, dead: Data -> bool, e: Entry)
    requires Unseen(m, p) && Swept(m, tm, p, dead) && e in p
    ensures e.key in tm && Unseen(m, p - multiset{e})
    ensures Swept(m, if dead(e.data) then tm - {e.key} else tm, p - multiset{e}, dead)
  {
    var q := p - multiset{e};
    assert e !in q;
    assert forall x :: x != e ==> p[x] == q[x];
  }

  lemma AllSwept(m: map<Key, Data>, tm: map<Key, Data>, dead: Data -> bool)
    requires Swept(m, tm, multiset{}, dead)
    ensures tm == map key | key in m && !dead(m[key]) :: m[key]
  {
    assert forall key :: key in m ==> Entry(key, m[key]) !in multiset{};
  }
}
